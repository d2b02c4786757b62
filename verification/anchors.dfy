/**
 * The anchor finder of the anchored diff (`tgs` in internal/andiff/andiff.go):
 * the longest increasing subsequence, in the sense of Szymanski's
 * Algorithm A, of the lines that occur exactly once on each side.
 */
module Anchors {

  /** A pair of line positions, one per side. */
  datatype Pair = Pair(x: nat, y: nat)

  /** The number of occurrences of s in xs. */
  function Count(s: string, xs: seq<string>): nat
    decreases |xs|
  {
    if |xs| == 0 then 0
    else Count(s, xs[..|xs| - 1]) + (if xs[|xs| - 1] == s then 1 else 0)
  }

  /** A line unique on both sides: the only lines that may become anchors. */
  predicate Candidate(s: string, x: seq<string>, y: seq<string>) {
    Count(s, x) == 1 && Count(s, y) == 1
  }

  /**
   * What the diff walk relies on: anchors strictly increasing in both
   * coordinates, each naming one line unique on both sides with equal text,
   * and the sentinel (len(x), len(y)) at the end.
   */
  predicate ValidAnchors(x: seq<string>, y: seq<string>, ms: seq<Pair>) {
    && |ms| >= 1
    && ms[|ms| - 1] == Pair(|x|, |y|)
    && (forall t :: 0 <= t < |ms| - 1 ==>
          ms[t].x < |x| && ms[t].y < |y| && x[ms[t].x] == y[ms[t].y] && Candidate(x[ms[t].x], x, y))
    && (forall s, t :: 0 <= s < t < |ms| ==> ms[s].x < ms[t].x && ms[s].y < ms[t].y)
  }

  /** Without a line unique on both sides, the sentinel is the only anchor. */
  lemma OnlySentinel(x: seq<string>, y: seq<string>, ms: seq<Pair>)
    requires ValidAnchors(x, y, ms)
    requires forall i :: 0 <= i < |x| ==> !Candidate(x[i], x, y)
    ensures ms == [Pair(|x|, |y|)]
  {
    FirstAnchor(x, y, ms);
    if |ms| == 1 {
      assert ms == [ms[0]];
    }
  }

  /** Every anchor but the sentinel names a line unique on both sides. */
  lemma FirstAnchor(x: seq<string>, y: seq<string>, ms: seq<Pair>)
    requires ValidAnchors(x, y, ms)
    ensures |ms| >= 2 ==> ms[0].x < |x| && Candidate(x[ms[0].x], x, y)
  {
  }

  /** The anchors still ahead stay valid as the walk passes the first one. */
  lemma DropFirst(x: seq<string>, y: seq<string>, ms: seq<Pair>)
    requires ValidAnchors(x, y, ms) && |ms| >= 2
    ensures ValidAnchors(x, y, ms[1..])
  {
    var r := ms[1..];
    forall s, t | 0 <= s < t < |r|
      ensures r[s].x < r[t].x && r[s].y < r[t].y
    {
      assert r[s] == ms[s + 1] && r[t] == ms[t + 1];
    }
  }

  // ---------------------------------------------------------------------
  // Facts about Count.

  lemma CountSnoc(s: string, xs: seq<string>, i: nat)
    requires i < |xs|
    ensures Count(s, xs[..i + 1]) == Count(s, xs[..i]) + (if xs[i] == s then 1 else 0)
  {
    assert xs[..i + 1][..i] == xs[..i];
  }

  /** Two occurrences make a line non-unique. */
  lemma {:induction false} CountTwo(s: string, xs: seq<string>, j: nat, i: nat)
    requires j < i < |xs| && xs[j] == s && xs[i] == s
    ensures Count(s, xs) >= 2
    decreases |xs|
  {
    var last := |xs| - 1;
    if i < last {
      CountTwo(s, xs[..last], j, i);
    } else {
      CountOne(s, xs[..last], j);
    }
  }

  lemma {:induction false} CountOne(s: string, xs: seq<string>, j: nat)
    requires j < |xs| && xs[j] == s
    ensures Count(s, xs) >= 1
    decreases |xs|
  {
    var last := |xs| - 1;
    if j < last {
      CountOne(s, xs[..last], j);
    }
  }

  /** A line at exactly one position is counted once. */
  lemma {:induction false} CountExactlyOne(s: string, xs: seq<string>, j: nat)
    requires j < |xs| && xs[j] == s
    requires forall i :: 0 <= i < |xs| && i != j ==> xs[i] != s
    ensures Count(s, xs) == 1
    decreases |xs|
  {
    var last := |xs| - 1;
    if j < last {
      CountExactlyOne(s, xs[..last], j);
    } else {
      CountNone(s, xs[..last]);
    }
  }

  /** A line at no position is not counted. */
  lemma {:induction false} CountNone(s: string, xs: seq<string>)
    requires forall i :: 0 <= i < |xs| ==> xs[i] != s
    ensures Count(s, xs) == 0
    decreases |xs|
  {
    if |xs| > 0 {
      CountNone(s, xs[..|xs| - 1]);
    }
  }

  /** A line that occurs has a position. */
  lemma {:induction false} CountWitness(s: string, xs: seq<string>) returns (p: nat)
    requires Count(s, xs) >= 1
    ensures p < |xs| && xs[p] == s
    decreases |xs|
  {
    var last := |xs| - 1;
    if xs[last] == s {
      p := last;
    } else {
      p := CountWitness(s, xs[..last]);
    }
  }

  // ---------------------------------------------------------------------
  // Cardinality facts for the permutation argument.

  lemma {:induction false} SetOfSeqSize(s: seq<nat>)
    ensures |set k | 0 <= k < |s| :: s[k]| <= |s|
    decreases |s|
  {
    if |s| > 0 {
      var last := |s| - 1;
      SetOfSeqSize(s[..last]);
      var a := set k | 0 <= k < last :: s[..last][k];
      var b := set k | 0 <= k < |s| :: s[k];
      assert b == a + {s[last]} by {
        forall v | v in b ensures v in a + {s[last]} {
          var k :| 0 <= k < |s| && s[k] == v;
          if k < last {
            assert s[..last][k] == v;
          }
        }
      }
    }
  }

  /** The numbers below m. */
  function Range(m: nat): (r: set<nat>)
    ensures |r| == m
    ensures forall j: nat :: j in r <==> j < m
  {
    if m == 0 then {} else Range(m - 1) + {m - 1}
  }

  /** The values of s. */
  function Image(s: seq<nat>): set<nat> {
    set k | 0 <= k < |s| :: s[k]
  }

  lemma {:induction false} SubsetSize(a: set<nat>, b: set<nat>)
    requires a <= b
    ensures |a| <= |b|
    decreases |b|
  {
    if a != {} {
      var v :| v in a;
      SubsetSize(a - {v}, b - {v});
    }
  }

  /** If every value below m occurs in s, then m <= |s|. */
  lemma CoverBound(s: seq<nat>, m: nat)
    requires Range(m) <= Image(s)
    ensures m <= |s|
  {
    SetOfSeqSize(s);
    SubsetSize(Range(m), Image(s));
  }

  // ---------------------------------------------------------------------
  // The algorithm.

  /** A map lookup with Go's zero default. */
  function Get(m: map<string, nat>, s: string): nat {
    if s in m then m[s] else 0
  }

  /** Counts saturate at 2: only "none", "once" and "many" matter. */
  function Cap(c: nat): nat {
    if c >= 2 then 2 else c
  }

  /** The saturated occurrence count of every line of xs. */
  method CountLines(xs: seq<string>) returns (m: map<string, nat>)
    ensures forall s :: Get(m, s) == Cap(Count(s, xs))
  {
    m := map[];
    for i := 0 to |xs|
      invariant forall s :: Get(m, s) == Cap(Count(s, xs[..i]))
    {
      var s := xs[i];
      var c := Get(m, s);
      if c < 2 {
        m := m[s := c + 1];
      }
      forall t ensures Get(m, t) == Cap(Count(t, xs[..i + 1])) {
        CountSnoc(t, xs, i);
      }
    }
    assert xs[..|xs|] == xs;
  }

  /**
   * sort.Search(n, func(k) bool { return T[k] >= v }): the smallest k with
   * T[k] >= v, or n, for a non-decreasing T.
   */
  method Search(T: seq<nat>, v: nat) returns (k: nat)
    requires forall a, b :: 0 <= a < b < |T| ==> T[a] <= T[b]
    ensures k <= |T|
    ensures forall j :: 0 <= j < k ==> T[j] < v
    ensures k < |T| ==> T[k] >= v
  {
    var lo, hi := 0, |T|;
    while lo < hi
      invariant 0 <= lo <= hi <= |T|
      invariant forall j :: 0 <= j < lo ==> T[j] < v
      invariant hi < |T| ==> T[hi] >= v
    {
      var mid := (lo + hi) / 2;
      if T[mid] >= v {
        hi := mid;
      } else {
        lo := mid + 1;
      }
    }
    k := lo;
  }

  /**
   * The positions, in increasing order, of the lines of y that are unique on
   * both sides, and for each such line its rank among them (the second and
   * third loops of tgs, with `rank` in place of the reused count map).
   */
  method IndexUniqueY(x: seq<string>, y: seq<string>, cx: map<string, nat>, cy: map<string, nat>)
      returns (yi: seq<nat>, rank: map<string, nat>)
    requires forall s :: Get(cx, s) == Cap(Count(s, x))
    requires forall s :: Get(cy, s) == Cap(Count(s, y))
    ensures forall a, b :: 0 <= a < b < |yi| ==> yi[a] < yi[b]
    ensures forall k :: 0 <= k < |yi| ==> yi[k] < |y| && Candidate(y[yi[k]], x, y)
    ensures forall k :: 0 <= k < |yi| ==> y[yi[k]] in rank && rank[y[yi[k]]] == k
    ensures forall s :: s in rank ==> rank[s] < |yi| && y[yi[rank[s]]] == s
    ensures forall j :: 0 <= j < |y| && Candidate(y[j], x, y) ==> y[j] in rank
  {
    yi, rank := [], map[];
    for i := 0 to |y|
      invariant Ranked(x, y, yi, rank, i)
    {
      var s := y[i];
      if Get(cx, s) == 1 && Get(cy, s) == 1 {
        RankAdd(x, y, yi, rank, i);
        rank := rank[s := |yi|];
        yi := yi + [i];
      }
    }
  }

  /** What the second and third loops of tgs have built after the first i lines of y. */
  ghost predicate Ranked(x: seq<string>, y: seq<string>, yi: seq<nat>, rank: map<string, nat>, i: nat)
    requires i <= |y|
  {
    && (forall a, b :: 0 <= a < b < |yi| ==> yi[a] < yi[b])
    && (forall k :: 0 <= k < |yi| ==> yi[k] < i && Candidate(y[yi[k]], x, y))
    && (forall k :: 0 <= k < |yi| ==> y[yi[k]] in rank && rank[y[yi[k]]] == k)
    && (forall s :: s in rank ==> rank[s] < |yi| && y[yi[rank[s]]] == s)
    && (forall j :: 0 <= j < i && Candidate(y[j], x, y) ==> y[j] in rank)
  }

  /** A line unique on both sides is appended with the next rank. */
  lemma RankAdd(x: seq<string>, y: seq<string>, yi: seq<nat>, rank: map<string, nat>, i: nat)
    requires i < |y| && Ranked(x, y, yi, rank, i) && Candidate(y[i], x, y)
    ensures Ranked(x, y, yi + [i], rank[y[i] := |yi|], i + 1)
  {
    var s := y[i];
    forall k | 0 <= k < |yi|
      ensures y[yi[k]] != s
    {
      if y[yi[k]] == s {
        CountTwo(s, y, yi[k], i);
      }
    }
    var yi', rank' := yi + [i], rank[s := |yi|];
    assert forall k :: 0 <= k < |yi| ==> yi'[k] == yi[k];
    forall s' | s' in rank'
      ensures rank'[s'] < |yi'| && y[yi'[rank'[s']]] == s'
    {
      if s' != s {
        assert rank'[s'] == rank[s'];
      }
    }
  }

  /**
   * The positions in x of the lines unique on both sides, in increasing
   * order, and for each the rank of the same line in y (the fourth loop of
   * tgs; J is `inv` there).
   */
  method MatchX(x: seq<string>, y: seq<string>, yi: seq<nat>, rank: map<string, nat>)
      returns (xi: seq<nat>, J: seq<nat>)
    requires forall k :: 0 <= k < |yi| ==> yi[k] < |y| && Candidate(y[yi[k]], x, y)
    requires forall s :: s in rank ==> rank[s] < |yi| && y[yi[rank[s]]] == s
    requires forall j :: 0 <= j < |y| && Candidate(y[j], x, y) ==> y[j] in rank
    ensures |xi| == |J|
    ensures forall a, b :: 0 <= a < b < |xi| ==> xi[a] < xi[b]
    ensures forall k :: 0 <= k < |xi| ==> xi[k] < |x| && J[k] < |yi|
    ensures forall k :: 0 <= k < |xi| ==> y[yi[J[k]]] == x[xi[k]] && Candidate(x[xi[k]], x, y)
    ensures forall p :: 0 <= p < |x| && Candidate(x[p], x, y) ==> exists k :: 0 <= k < |xi| && xi[k] == p
  {
    xi, J := [], [];
    for i := 0 to |x|
      invariant |xi| == |J|
      invariant forall a, b :: 0 <= a < b < |xi| ==> xi[a] < xi[b]
      invariant forall k :: 0 <= k < |xi| ==> xi[k] < i && J[k] < |yi|
      invariant forall k :: 0 <= k < |xi| ==> y[yi[J[k]]] == x[xi[k]] && Candidate(x[xi[k]], x, y)
      invariant forall p :: 0 <= p < i && Candidate(x[p], x, y) ==> exists k :: 0 <= k < |xi| && xi[k] == p
    {
      var s := x[i];
      if s in rank {
        var xi0 := xi;
        xi, J := xi + [i], J + [rank[s]];
        forall p | 0 <= p <= i && Candidate(x[p], x, y)
          ensures exists k :: 0 <= k < |xi| && xi[k] == p
        {
          if p == i {
            assert xi[|xi| - 1] == i;
          } else {
            var k :| 0 <= k < |xi0| && xi0[k] == p;
            assert xi[k] == p;
          }
        }
      } else if Candidate(s, x, y) {
        var p := CountWitness(s, y);
        assert false;
      }
    }
  }

  // The state of Algorithm A after i steps, one conjunct per predicate.
  // The existential facts sit behind their own predicates, which the
  // universal ones use as triggers, so that a witness never feeds back
  // into the quantifier that produced it.

  /** J holds distinct values below its length, as a permutation does. */
  ghost predicate PermLike(J: seq<nat>) {
    && (forall a :: 0 <= a < |J| ==> J[a] < |J|)
    && (forall a, b :: 0 <= a < b < |J| ==> J[a] != J[b])
  }

  /** k is what sort.Search returns for the predicate T[k] >= v. */
  ghost predicate Searched(T: seq<nat>, v: nat, k: nat) {
    k <= |T| && (forall j :: 0 <= j < k ==> T[j] < v) && (k < |T| ==> T[k] >= v)
  }

  /** T[..f] holds strictly increasing values of J, the rest is n + 1. */
  ghost predicate TShape(J: seq<nat>, T: seq<nat>, f: nat) {
    && |T| == |J| && f <= |J|
    && (forall k :: 0 <= k < f ==> T[k] < |J|)
    && (forall k :: f <= k < |J| ==> T[k] == |J| + 1)
    && (forall a, b :: 0 <= a < b < f ==> T[a] < T[b])
  }

  /** Slot k of T holds the last value of a run of length k + 1 among J[..i]. */
  ghost predicate Filled(J: seq<nat>, T: seq<nat>, L: seq<nat>, i: nat, k: nat)
    requires |T| == |J| == |L| && i <= |J| && k < |J|
  {
    exists w :: 0 <= w < i && J[w] == T[k] && L[w] == k + 1
  }

  ghost predicate Witnessed(J: seq<nat>, T: seq<nat>, L: seq<nat>, f: nat, i: nat)
    requires |T| == |J| == |L| && f <= |J| && i <= |J|
  {
    forall k {:trigger Filled(J, T, L, i, k)} :: 0 <= k < f ==> Filled(J, T, L, i, k)
  }

  /** The run lengths found so far, and the slot each one left behind. */
  ghost predicate Bounded(J: seq<nat>, T: seq<nat>, L: seq<nat>, f: nat, i: nat)
    requires |T| == |J| == |L| && f <= |J| && i <= |J|
  {
    forall a :: 0 <= a < i ==> 1 <= L[a] <= f && T[L[a] - 1] <= J[a]
  }

  /** The run of length L[a] ending at a extends a run one shorter. */
  ghost predicate Extends(J: seq<nat>, L: seq<nat>, a: nat)
    requires |L| == |J| && a < |J|
  {
    exists w :: 0 <= w < a && L[w] + 1 == L[a] && J[w] < J[a]
  }

  ghost predicate Pred(J: seq<nat>, L: seq<nat>, i: nat)
    requires |L| == |J| && i <= |J|
  {
    forall a {:trigger Extends(J, L, a)} :: 0 <= a < i && L[a] > 1 ==> Extends(J, L, a)
  }

  /** A larger later value ends a strictly longer run. */
  ghost predicate Mono(J: seq<nat>, L: seq<nat>, i: nat)
    requires |L| == |J| && i <= |J|
  {
    forall a, b :: 0 <= a < b < i && J[a] < J[b] ==> L[a] < L[b]
  }

  ghost predicate LisInv(J: seq<nat>, T: seq<nat>, L: seq<nat>, f: nat, i: nat) {
    && |L| == |J| && i <= |J| && f <= i
    && TShape(J, T, f)
    && Witnessed(J, T, L, f, i)
    && Bounded(J, T, L, f, i)
    && Pred(J, L, i)
    && Mono(J, L, i)
  }

  lemma TShapeSorted(J: seq<nat>, T: seq<nat>, f: nat)
    requires TShape(J, T, f)
    ensures forall a, b :: 0 <= a < b < |T| ==> T[a] <= T[b]
  {
  }

  lemma StepSlot(J: seq<nat>, T: seq<nat>, L: seq<nat>, f: nat, i: nat, k: nat)
    requires PermLike(J) && |L| == |J| && i < |J| && f <= i
    requires TShape(J, T, f) && Witnessed(J, T, L, f, i) && Searched(T, J[i], k)
    ensures k <= f && k < |J|
    ensures k < f ==> J[i] < T[k]
    ensures k > 0 ==> exists w :: 0 <= w < i && J[w] == T[k - 1] && L[w] == k && J[w] < J[i]
  {
    assert k <= f by {
      if f < |J| {
        assert T[f] == |J| + 1 > J[i];
      }
    }
    if k < f {
      assert Filled(J, T, L, i, k);
      var w :| 0 <= w < i && J[w] == T[k] && L[w] == k + 1;
      assert J[w] != J[i];
    }
    if k > 0 {
      assert Filled(J, T, L, i, k - 1);
    }
  }

  lemma StepShape(J: seq<nat>, T: seq<nat>, f: nat, i: nat, k: nat)
    requires PermLike(J) && i < |J| && TShape(J, T, f) && Searched(T, J[i], k)
    requires k <= f && k < |J| && (k < f ==> J[i] < T[k])
    ensures TShape(J, T[k := J[i]], if k == f then f + 1 else f)
  {
  }

  lemma StepWitnessed(J: seq<nat>, T: seq<nat>, L: seq<nat>, f: nat, i: nat, k: nat)
    requires |T| == |J| == |L| && i < |J| && f <= i && k <= f && k < |J|
    requires Witnessed(J, T, L, f, i)
    ensures Witnessed(J, T[k := J[i]], L[i := k + 1], if k == f then f + 1 else f, i + 1)
  {
    var T', L', f', i' := T[k := J[i]], L[i := k + 1], if k == f then f + 1 else f, i + 1;
    forall kk | 0 <= kk < f'
      ensures Filled(J, T', L', i', kk)
    {
      if kk == k {
        assert J[i] == T'[kk] && L'[i] == kk + 1;
      } else {
        assert Filled(J, T, L, i, kk);
        var w :| 0 <= w < i && J[w] == T[kk] && L[w] == kk + 1;
        assert J[w] == T'[kk] && L'[w] == kk + 1;
      }
    }
  }

  lemma StepBounded(J: seq<nat>, T: seq<nat>, L: seq<nat>, f: nat, i: nat, k: nat)
    requires |T| == |J| == |L| && i < |J| && f <= i && k <= f && k < |J|
    requires Bounded(J, T, L, f, i) && T[k] >= J[i]
    ensures Bounded(J, T[k := J[i]], L[i := k + 1], if k == f then f + 1 else f, i + 1)
  {
  }

  lemma StepPred(J: seq<nat>, T: seq<nat>, L: seq<nat>, i: nat, k: nat)
    requires |L| == |J| == |T| && i < |J| && k < |J|
    requires Pred(J, L, i)
    requires k > 0 ==> exists w :: 0 <= w < i && J[w] == T[k - 1] && L[w] == k && J[w] < J[i]
    ensures Pred(J, L[i := k + 1], i + 1)
  {
    var L' := L[i := k + 1];
    forall a | 0 <= a < i + 1 && L'[a] > 1
      ensures Extends(J, L', a)
    {
      if a < i {
        assert Extends(J, L, a);
        var w :| 0 <= w < a && L[w] + 1 == L[a] && J[w] < J[a];
        assert L'[w] + 1 == L'[a];
      } else {
        var w :| 0 <= w < i && J[w] == T[k - 1] && L[w] == k && J[w] < J[i];
        assert L'[w] + 1 == L'[a];
      }
    }
  }

  lemma StepMono(J: seq<nat>, T: seq<nat>, L: seq<nat>, f: nat, i: nat, k: nat)
    requires |T| == |J| == |L| && i < |J| && f <= i
    requires forall a, b :: 0 <= a < b < |T| ==> T[a] <= T[b]
    requires Mono(J, L, i) && Bounded(J, T, L, f, i) && Searched(T, J[i], k)
    ensures Mono(J, L[i := k + 1], i + 1)
  {
    var L' := L[i := k + 1];
    forall j | k <= j < |T|
      ensures T[j] >= J[i]
    {
      assert T[k] <= T[j];
    }
    forall a, b | 0 <= a < b < i + 1 && J[a] < J[b]
      ensures L'[a] < L'[b]
    {
      if b == i {
        assert T[L[a] - 1] <= J[a];
      }
    }
  }

  /** One step of Algorithm A keeps its whole state invariant. */
  lemma Step(J: seq<nat>, T: seq<nat>, L: seq<nat>, f: nat, i: nat, k: nat)
    requires PermLike(J) && i < |J| && LisInv(J, T, L, f, i) && Searched(T, J[i], k)
    ensures k < |J|
    ensures LisInv(J, T[k := J[i]], L[i := k + 1], if k == f then f + 1 else f, i + 1)
  {
    TShapeSorted(J, T, f);
    StepSlot(J, T, L, f, i, k);
    StepShape(J, T, f, i, k);
    StepWitnessed(J, T, L, f, i, k);
    StepBounded(J, T, L, f, i, k);
    StepPred(J, T, L, i, k);
    StepMono(J, T, L, f, i, k);
  }

  /**
   * Szymanski's Algorithm A over J: L[i] is the length of a longest
   * increasing run of J ending at i, found by binary search in T, where T[k]
   * is the smallest last value of an increasing run of length k + 1.
   */
  method Lis(J: seq<nat>) returns (L: seq<nat>)
    requires PermLike(J)
    ensures |L| == |J|
    ensures forall a :: 0 <= a < |J| ==> L[a] >= 1
    ensures Pred(J, L, |J|) && Mono(J, L, |J|)
  {
    var n := |J|;
    var T: seq<nat> := seq(n, _ => n + 1);
    L := seq(n, _ => 0);
    ghost var f := 0;
    for i := 0 to n
      invariant LisInv(J, T, L, f, i)
    {
      TShapeSorted(J, T, f);
      var k := Search(T, J[i]);
      Step(J, T, L, f, i, k);
      T := T[k := J[i]];
      L := L[i := k + 1];
      if k == f {
        f := f + 1;
      }
    }
    assert Bounded(J, T, L, f, n);
  }

  /** The index tables tgs builds before running Algorithm A. */
  ghost predicate Tables(x: seq<string>, y: seq<string>, xi: seq<nat>, yi: seq<nat>, J: seq<nat>) {
    && Indexes(x, y, xi, yi, J)
    && (forall p :: 0 <= p < |x| && Candidate(x[p], x, y) ==> exists k :: 0 <= k < |xi| && xi[k] == p)
  }

  /** xi and yi list lines unique on both sides, and J pairs them up. */
  ghost predicate Indexes(x: seq<string>, y: seq<string>, xi: seq<nat>, yi: seq<nat>, J: seq<nat>) {
    && |xi| == |J|
    && (forall a, b :: 0 <= a < b < |yi| ==> yi[a] < yi[b])
    && (forall k :: 0 <= k < |yi| ==> yi[k] < |y| && Candidate(y[yi[k]], x, y))
    && (forall a, b :: 0 <= a < b < |xi| ==> xi[a] < xi[b])
    && (forall k :: 0 <= k < |xi| ==> xi[k] < |x| && J[k] < |yi|)
    && (forall k :: 0 <= k < |xi| ==> y[yi[J[k]]] == x[xi[k]] && Candidate(x[xi[k]], x, y))
  }

  /** The first four loops of tgs. */
  method BuildTables(x: seq<string>, y: seq<string>) returns (xi: seq<nat>, yi: seq<nat>, J: seq<nat>)
    ensures Tables(x, y, xi, yi, J)
  {
    var cx := CountLines(x);
    var cy := CountLines(y);
    var rank;
    yi, rank := IndexUniqueY(x, y, cx, cy);
    xi, J := MatchX(x, y, yi, rank);
  }

  /** inv is a permutation of [0, n): distinct, and every rank occurs. */
  lemma TablesPerm(x: seq<string>, y: seq<string>, xi: seq<nat>, yi: seq<nat>, J: seq<nat>)
    requires Tables(x, y, xi, yi, J)
    ensures PermLike(J)
  {
    forall a, b | 0 <= a < b < |J|
      ensures J[a] != J[b]
    {
      if J[a] == J[b] {
        CountTwo(x[xi[a]], x, xi[a], xi[b]);
      }
    }
    forall r | r in Range(|yi|)
      ensures r in Image(J)
    {
      var s := y[yi[r]];
      var p := CountWitness(s, x);
      var k :| 0 <= k < |xi| && xi[k] == p;
      if J[k] < r {
        CountTwo(s, y, yi[J[k]], yi[r]);
      } else if J[k] > r {
        CountTwo(s, y, yi[r], yi[J[k]]);
      }
      assert J[k] == r;
    }
    CoverBound(J, |yi|);
  }

  /** Putting a smaller valid pair in front keeps a chain of anchors valid. */
  lemma Prepend(x: seq<string>, y: seq<string>, p: Pair, ms: seq<Pair>)
    requires ValidAnchors(x, y, ms)
    requires p.x < |x| && p.y < |y| && x[p.x] == y[p.y] && Candidate(x[p.x], x, y)
    requires p.x < ms[0].x && p.y < ms[0].y
    ensures ValidAnchors(x, y, [p] + ms)
  {
    var ms' := [p] + ms;
    forall s, t | 0 <= s < t < |ms'|
      ensures ms'[s].x < ms'[t].x && ms'[s].y < ms'[t].y
    {
      if s == 0 && t > 1 {
        assert ms[0].x < ms[t - 1].x && ms[0].y < ms[t - 1].y;
      }
    }
  }

  /**
   * The next pick is below the previous one in y as well: a larger J[i]
   * would give index i a run longer than the k of the witness.
   */
  lemma PickOrder(J: seq<nat>, L: seq<nat>, i: nat, lp: nat, k: nat)
    requires |L| == |J| && i < lp < |J| && L[i] == k && Mono(J, L, |J|)
    requires exists w :: 0 <= w < i + 1 && L[w] == k && J[w] < J[lp]
    ensures J[i] < J[lp]
  {
    var w :| 0 <= w < i + 1 && L[w] == k && J[w] < J[lp];
    assert L[w] == L[i];
  
  }

  /** The largest run length, 0 for no runs. */
  method MaxRun(L: seq<nat>) returns (m: nat)
    ensures forall a :: 0 <= a < |L| ==> L[a] <= m
    ensures m > 0 ==> exists w :: 0 <= w < |L| && L[w] == m
  {
    m := 0;
    for i := 0 to |L|
      invariant forall a :: 0 <= a < i ==> L[a] <= m
      invariant m > 0 ==> exists w :: 0 <= w < i && L[w] == m
    {
      if m < L[i] {
        m := L[i];
      }
    }
  }

  /**
   * The last loop of tgs: walking back from the end, pick the last index
   * of each run length, longest first, and map it back to line positions.
   */
  method Backtrack(x: seq<string>, y: seq<string>, xi: seq<nat>, yi: seq<nat>, J: seq<nat>,
                   L: seq<nat>, kmax: nat) returns (ms: seq<Pair>)
    requires Indexes(x, y, xi, yi, J) && |L| == |J|
    requires forall a :: 0 <= a < |J| ==> L[a] >= 1
    requires forall a :: 0 <= a < |J| ==> J[a] < |J|
    requires Pred(J, L, |J|) && Mono(J, L, |J|)
    requires kmax > 0 ==> exists w :: 0 <= w < |L| && L[w] == kmax
    ensures ValidAnchors(x, y, ms) && |ms| == kmax + 1
  {
    var n := |J|;
    var k := kmax;
    ms := [Pair(|x|, |y|)];
    var lastj := n;
    ghost var lp := n;
    var i := n;
    while i > 0
      invariant 0 <= i <= n && 0 <= k <= kmax
      invariant ValidAnchors(x, y, ms) && |ms| == kmax - k + 1
      invariant lp <= n && (lp == n ==> |ms| == 1)
      invariant lp < n ==> i <= lp && ms[0] == Pair(xi[lp], yi[J[lp]])
      invariant k > 0 ==> exists w :: 0 <= w < i && L[w] == k && (lp < n ==> J[w] < J[lp])
    {
      i := i - 1;
      if L[i] == k && J[i] < lastj {
        var p := Pair(xi[i], yi[J[i]]);
        if lp < n {
          PickOrder(J, L, i, lp, k);
          assert p.x < ms[0].x && p.y < ms[0].y;
        } else {
          assert ms[0] == Pair(|x|, |y|);
        }
        if k > 1 {
          assert Extends(J, L, i);
        }
        Prepend(x, y, p, ms);
        ms := [p] + ms;
        k := k - 1;
        lp := i;
      }
    }
  }

  // ---------------------------------------------------------------------
  // Why the chain is the longest one.

  /** Indices of J, increasing, whose values increase too. */
  ghost predicate JChain(J: seq<nat>, c: seq<nat>) {
    && (forall t :: 0 <= t < |c| ==> c[t] < |J|)
    && (forall s, t :: 0 <= s < t < |c| ==> c[s] < c[t] && J[c[s]] < J[c[t]])
  }

  /** L[a] bounds the length of every increasing chain ending at a. */
  lemma {:induction false} ChainLength(J: seq<nat>, L: seq<nat>, c: seq<nat>)
    requires |L| == |J| && (forall a :: 0 <= a < |J| ==> L[a] >= 1) && Mono(J, L, |J|)
    requires JChain(J, c) && |c| > 0
    ensures L[c[|c| - 1]] >= |c|
    decreases |c|
  {
    if |c| > 1 {
      var c' := c[..|c| - 1];
      assert JChain(J, c');
      ChainLength(J, L, c');
      assert c'[|c'| - 1] == c[|c| - 2];
    }
  }

  /** A pair of equal unique lines is one of the pairs the tables list. */
  lemma IndexOf(x: seq<string>, y: seq<string>, xi: seq<nat>, yi: seq<nat>, J: seq<nat>, p: Pair)
      returns (k: nat)
    requires Tables(x, y, xi, yi, J)
    requires p.x < |x| && p.y < |y| && x[p.x] == y[p.y] && Candidate(x[p.x], x, y)
    ensures k < |xi| && xi[k] == p.x && yi[J[k]] == p.y
  {
    k :| 0 <= k < |xi| && xi[k] == p.x;
    var q := yi[J[k]];
    if q < p.y {
      CountTwo(x[p.x], y, q, p.y);
    } else if q > p.y {
      CountTwo(x[p.x], y, p.y, q);
    }
  }

  /** Every valid chain of anchors is an increasing chain of J. */
  lemma ChainOf(x: seq<string>, y: seq<string>, xi: seq<nat>, yi: seq<nat>, J: seq<nat>, ms: seq<Pair>)
      returns (c: seq<nat>)
    requires Tables(x, y, xi, yi, J) && ValidAnchors(x, y, ms)
    ensures JChain(J, c) && |c| == |ms| - 1
  {
    c := [];
    for t := 0 to |ms| - 1
      invariant |c| == t
      invariant forall u :: 0 <= u < t ==> c[u] < |xi| && xi[c[u]] == ms[u].x && yi[J[c[u]]] == ms[u].y
    {
      var k := IndexOf(x, y, xi, yi, J, ms[t]);
      c := c + [k];
    }
    forall s, t | 0 <= s < t < |c|
      ensures c[s] < c[t] && J[c[s]] < J[c[t]]
    {
      assert ms[s].x < ms[t].x && ms[s].y < ms[t].y;
    }
  }

  /**
   * The anchors of the diff: the longest chain of lines unique on both
   * sides that is increasing in both x and y, followed by the sentinel
   * (len(x), len(y)).
   */
  method Tgs(x: seq<string>, y: seq<string>) returns (ms: seq<Pair>)
    ensures ValidAnchors(x, y, ms)
    ensures forall other :: ValidAnchors(x, y, other) ==> |other| <= |ms|
  {
    var xi, yi, J := BuildTables(x, y);
    TablesPerm(x, y, xi, yi, J);
    var L := Lis(J);
    var kmax := MaxRun(L);
    ms := Backtrack(x, y, xi, yi, J, L, kmax);
    forall other | ValidAnchors(x, y, other)
      ensures |other| <= |ms|
    {
      var c := ChainOf(x, y, xi, yi, J, other);
      if |c| > 0 {
        ChainLength(J, L, c);
      }
    }
  }
}
