/**
 * Strictly increasing string sequences under Go's byte order: what
 * `slices.Sort` produces from distinct strings and what the sortedness
 * checks of the archive writers and the CLI look for.
 */
module Sorting {
  import opened Text

  /** Every element is below every later one. */
  predicate Increasing(s: seq<string>) {
    forall i, j :: 0 <= i < j < |s| ==> Less(s[i], s[j])
  }

  /** Every element is below the next one: what a single pass over neighbours checks. */
  predicate Chained(s: seq<string>) {
    forall i :: 0 < i < |s| ==> Less(s[i - 1], s[i])
  }

  /** Checking neighbours is enough, by transitivity. */
  lemma {:induction false} ChainedIncreasing(s: seq<string>)
    ensures Chained(s) <==> Increasing(s)
    decreases |s|
  {
    if Chained(s) && |s| > 1 {
      var init := s[..|s| - 1];
      assert Chained(init) by {
        forall i | 0 < i < |init|
          ensures Less(init[i - 1], init[i])
        {
          assert init[i - 1] == s[i - 1] && init[i] == s[i];
        }
      }
      ChainedIncreasing(init);
      forall i, j | 0 <= i < j < |s|
        ensures Less(s[i], s[j])
      {
        if j < |s| - 1 {
          assert init[i] == s[i] && init[j] == s[j];
        } else if i < j - 1 {
          assert init[i] == s[i] && init[j - 1] == s[j - 1];
          LessTransitive(s[i], s[j - 1], s[j]);
        }
      }
    }
  }

  /** An increasing sequence has no repeated element. */
  lemma IncreasingDistinct(s: seq<string>, i: int, j: int)
    requires Increasing(s) && 0 <= i < j < |s|
    ensures s[i] != s[j]
  {
    LessAsymmetric(s[i], s[j]);
  }

  /** x goes into an increasing sequence at its place, unless it is already there. */
  function Insert(t: seq<string>, x: string): (r: seq<string>)
    requires Increasing(t)
    ensures Increasing(r)
    ensures forall y :: y in r <==> y in t || y == x
    ensures |r| == if x in t then |t| else |t| + 1
    decreases |t|
  {
    if |t| == 0 then [x]
    else if x == t[0] then t
    else if Less(x, t[0]) then
      var r := [x] + t;
      assert forall j :: 0 < j < |r| ==> r[j] == t[j - 1];
      assert forall j :: 0 < j < |r| ==> Less(x, r[j]) by {
        forall j | 0 < j < |r|
          ensures Less(x, r[j])
        {
          if j > 1 {
            LessTransitive(x, t[0], t[j - 1]);
          }
        }
      }
      assert x !in t by {
        if x in t {
          var k :| 0 <= k < |t| && t[k] == x;
          LessAsymmetric(x, t[0]);
        }
      }
      r
    else
      LessTotal(x, t[0]);
      var rest := Insert(t[1..], x);
      assert forall y :: y in t[1..] ==> Less(t[0], y) by {
        forall y | y in t[1..]
          ensures Less(t[0], y)
        {
          var k :| 0 <= k < |t[1..]| && t[1..][k] == y;
          assert t[k + 1] == y;
        }
      }
      var r := [t[0]] + rest;
      assert forall j :: 0 < j < |r| ==> r[j] == rest[j - 1];
      assert forall j :: 0 < j < |r| ==> Less(t[0], r[j]) by {
        forall j | 0 < j < |r|
          ensures Less(t[0], r[j])
        {
          assert r[j] in rest;
        }
      }
      assert t == [t[0]] + t[1..];
      assert x in t <==> x in t[1..];
      r
  }

  /** The distinct elements of s in increasing order. */
  function Sort(s: seq<string>): (r: seq<string>)
    ensures Increasing(r)
    ensures forall y :: y in r <==> y in s
    ensures |r| <= |s|
    decreases |s|
  {
    if |s| == 0 then [] else Insert(Sort(s[..|s| - 1]), s[|s| - 1])
  }

  /** Dropping the head keeps a sequence increasing. */
  lemma IncreasingTail(a: seq<string>)
    requires Increasing(a) && |a| > 0
    ensures Increasing(a[1..])
  {
    forall i, j | 0 <= i < j < |a| - 1
      ensures Less(a[1..][i], a[1..][j])
    {
      assert a[1..][i] == a[i + 1] && a[1..][j] == a[j + 1];
    }
  }

  /** The head of an increasing sequence is its least element. */
  lemma IncreasingHead(a: seq<string>, b: seq<string>)
    requires Increasing(a) && Increasing(b) && |a| > 0
    requires forall y :: y in a <==> y in b
    ensures |b| > 0 && a[0] == b[0]
  {
    assert a[0] in b;
    var j :| 0 <= j < |b| && b[j] == a[0];
    assert b[0] in a;
    var i :| 0 <= i < |a| && a[i] == b[0];
    if j > 0 {
      if i > 0 {
        LessAsymmetric(b[0], b[j]);
      }
    }
  }

  /** Below equal heads, the tails hold the same elements. */
  lemma TailsAgree(a: seq<string>, b: seq<string>, y: string)
    requires Increasing(a) && Increasing(b) && |a| > 0 && |b| > 0 && a[0] == b[0]
    requires forall y :: y in a <==> y in b
    ensures y in a[1..] ==> y in b[1..]
  {
    if y in a[1..] {
      var k :| 0 <= k < |a[1..]| && a[1..][k] == y;
      IncreasingDistinct(a, 0, k + 1);
      assert y in b && y != b[0];
      var l :| 0 <= l < |b| && b[l] == y;
      assert b[1..][l - 1] == y;
    }
  }

  /** Two increasing sequences with the same elements are the same sequence. */
  lemma {:induction false} IncreasingUnique(a: seq<string>, b: seq<string>)
    requires Increasing(a) && Increasing(b)
    requires forall y :: y in a <==> y in b
    ensures a == b
    decreases |a|
  {
    if |a| > 0 {
      IncreasingHead(a, b);
      forall y
        ensures y in a[1..] <==> y in b[1..]
      {
        TailsAgree(a, b, y);
        TailsAgree(b, a, y);
      }
      IncreasingTail(a);
      IncreasingTail(b);
      IncreasingUnique(a[1..], b[1..]);
      assert a == [a[0]] + a[1..] && b == [b[0]] + b[1..];
    } else if |b| > 0 {
      IncreasingHead(b, a);
    }
  }
}
