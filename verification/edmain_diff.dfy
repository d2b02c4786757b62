/**
 * The comparison at the heart of the CLI's diff commands
 * (internal/edmain/edmain.go): the current effects are sorted, filtered
 * and checked for duplicate keys; the saved baseline is checked for
 * order and filtered; then one walk over both classifies every key as
 * deleted, added or changed.
 */
module EdMainDiff {
  import opened Wrappers
  import opened Text
  import opened KeyValue
  import Sorting

  /** The keys of es, in order. */
  function Keys(es: seq<KV>): (ks: seq<string>)
    ensures |ks| == |es| && forall i :: 0 <= i < |es| ==> ks[i] == es[i].k
  {
    seq(|es|, i requires 0 <= i < |es| => es[i].k)
  }

  /** a < b and b <= c give a < c. */
  lemma LessBelow(a: string, b: string, c: string)
    requires Less(a, b) && !Less(c, b)
    ensures Less(a, c)
  {
    LessTotal(b, c);
    if Less(b, c) {
      LessTransitive(a, b, c);
    }
  }

  // ---------------------------------------------------------------------
  // The current side: slices.SortFunc by key, DeleteFunc, the unique check.

  /** No key is below an earlier one. */
  predicate Sorted(es: seq<KV>) {
    forall i, j :: 0 <= i < j < |es| ==> !Less(es[j].k, es[i].k)
  }

  /** e goes after every entry whose key is not above its own. */
  function Insert(t: seq<KV>, e: KV): (r: seq<KV>)
    requires Sorted(t)
    ensures Sorted(r)
    ensures multiset(r) == multiset(t) + multiset{e}
    decreases |t|
  {
    if |t| == 0 then [e]
    else if Less(e.k, t[0].k) then
      InsertFront(t, e);
      [e] + t
    else
      SortedTail(t);
      var rest := Insert(t[1..], e);
      InsertBehind(t, e, rest);
      [t[0]] + rest
  }

  lemma SortedTail(t: seq<KV>)
    requires |t| > 0 && Sorted(t)
    ensures Sorted(t[1..])
    ensures forall x :: x in t[1..] ==> !Less(x.k, t[0].k)
  {
    forall i, j | 0 <= i < j < |t| - 1
      ensures !Less(t[1..][j].k, t[1..][i].k)
    {
      assert t[1..][i] == t[i + 1] && t[1..][j] == t[j + 1];
    }
    forall x | x in t[1..]
      ensures !Less(x.k, t[0].k)
    {
      var q :| 0 <= q < |t[1..]| && t[1..][q] == x;
      assert t[q + 1] == x;
    }
  }

  lemma InsertFront(t: seq<KV>, e: KV)
    requires Sorted(t) && |t| > 0 && Less(e.k, t[0].k)
    ensures Sorted([e] + t)
  {
    var r := [e] + t;
    forall i, j | 0 <= i < j < |r|
      ensures !Less(r[j].k, r[i].k)
    {
      if i == 0 {
        if j == 1 {
          LessAsymmetric(e.k, t[0].k);
        } else {
          assert !Less(t[j - 1].k, t[0].k);
          LessBelow(e.k, t[0].k, t[j - 1].k);
          LessAsymmetric(e.k, t[j - 1].k);
        }
      } else {
        assert r[i] == t[i - 1] && r[j] == t[j - 1];
      }
    }
  }

  lemma InsertBehind(t: seq<KV>, e: KV, rest: seq<KV>)
    requires |t| > 0 && !Less(e.k, t[0].k)
    requires forall x :: x in t[1..] ==> !Less(x.k, t[0].k)
    requires Sorted(rest) && multiset(rest) == multiset(t[1..]) + multiset{e}
    ensures Sorted([t[0]] + rest)
    ensures multiset([t[0]] + rest) == multiset(t) + multiset{e}
  {
    var r := [t[0]] + rest;
    assert t == [t[0]] + t[1..];
    forall i, j | 0 <= i < j < |r|
      ensures !Less(r[j].k, r[i].k)
    {
      if i == 0 {
        assert r[j] in multiset(rest);
      } else {
        assert r[i] == rest[i - 1] && r[j] == rest[j - 1];
      }
    }
  }

  /** slices.SortFunc by key: the same entries, sorted. */
  function SortByKey(es: seq<KV>): (r: seq<KV>)
    ensures Sorted(r)
    ensures multiset(r) == multiset(es)
    decreases |es|
  {
    if |es| == 0 then []
    else
      assert es == es[..|es| - 1] + [es[|es| - 1]];
      Insert(SortByKey(es[..|es| - 1]), es[|es| - 1])
  }

  /** slices.DeleteFunc dropping the entries whose key the filter does not match. */
  function Select(es: seq<KV>, matches: string -> bool): (r: seq<KV>)
    ensures forall x :: multiset(r)[x] == if matches(x.k) then multiset(es)[x] else 0
    ensures Sorted(es) ==> Sorted(r)
    decreases |es|
  {
    if |es| == 0 then []
    else
      var rest := Select(es[1..], matches);
      assert es == [es[0]] + es[1..];
      SelectHead(es, matches, rest);
      if matches(es[0].k) then [es[0]] + rest else rest
  }

  lemma SelectHead(es: seq<KV>, matches: string -> bool, rest: seq<KV>)
    requires |es| > 0
    requires forall x :: multiset(rest)[x] == if matches(x.k) then multiset(es[1..])[x] else 0
    requires Sorted(es[1..]) ==> Sorted(rest)
    ensures Sorted(es) ==> Sorted(rest) && Sorted([es[0]] + rest)
  {
    if Sorted(es) {
      SortedTail(es);
      var r := [es[0]] + rest;
      forall i, j | 0 <= i < j < |r|
        ensures !Less(r[j].k, r[i].k)
      {
        if i == 0 {
          assert r[j] in multiset(rest);
        } else {
          assert r[i] == rest[i - 1] && r[j] == rest[j - 1];
        }
      }
    }
  }

  /** The unique check from index i on: the first entry whose key equals the one before it. */
  function FirstDuplicate(es: seq<KV>, i: nat): (r: Option<nat>)
    requires i >= 1
    ensures r.None? <==> forall j :: i <= j < |es| ==> es[j].k != es[j - 1].k
    ensures r.Some? ==> i <= r.value < |es| && es[r.value].k == es[r.value - 1].k
    ensures r.Some? ==> forall j :: i <= j < r.value ==> es[j].k != es[j - 1].k
    decreases |es| - i
  {
    if i >= |es| then None
    else if es[i].k == es[i - 1].k then Some(i)
    else FirstDuplicate(es, i + 1)
  }

  /** Two entries at different positions of es share a key that the filter matches. */
  predicate Clash(es: seq<KV>, matches: string -> bool) {
    exists i, j :: 0 <= i < j < |es| && es[i].k == es[j].k && matches(es[i].k)
  }

  /**
   * The current side as Run prepares it: sorted by key, filtered, and
   * refused with the duplicated key when two effects share one.
   */
  function Current(es: seq<KV>, matches: string -> bool): (r: Result<seq<KV>, string>)
    ensures r.Ok? ==> Sorting.Increasing(Keys(r.value))
    ensures r.Ok? ==> forall x :: multiset(r.value)[x] == if matches(x.k) then multiset(es)[x] else 0
    ensures r.Err? ==> matches(r.error) && Duplicated(es, r.error)
    ensures r.Err? ==> forall k :: matches(k) && Duplicated(es, k) ==> !Less(k, r.error)
    ensures r.Err? <==> Clash(es, matches)
  {
    var s := Select(SortByKey(es), matches);
    match FirstDuplicate(s, 1)
    case Some(q) =>
      DuplicateClash(es, matches, s, q);
      LeastDuplicate(es, matches, s, q);
      Err(s[q].k)
    case None =>
      SortedUnique(s);
      NoClash(es, matches, s);
      Ok(s)
  }

  /** At least two entries of es carry key k. */
  predicate Duplicated(es: seq<KV>, k: string) {
    exists i, j :: 0 <= i < j < |es| && es[i].k == es[j].k == k
  }

  /**
   * The first neighbouring pair with one key in the sorted, filtered list
   * carries the least key that the filter matches and es duplicates.
   */
  lemma LeastDuplicate(es: seq<KV>, matches: string -> bool, s: seq<KV>, q: nat)
    requires forall x :: multiset(s)[x] == if matches(x.k) then multiset(es)[x] else 0
    requires Sorted(s) && 1 <= q < |s| && s[q].k == s[q - 1].k
    requires forall j :: 1 <= j < q ==> s[j].k != s[j - 1].k
    ensures forall k :: matches(k) && Duplicated(es, k) ==> !Less(k, s[q].k)
  {
    forall k | matches(k) && Duplicated(es, k)
      ensures !Less(k, s[q].k)
    {
      var i, j :| 0 <= i < j < |es| && es[i].k == es[j].k == k;
      var p, p2 := ClashForward(es, matches, s, i, j);
      // sorted order squeezes the key k onto the neighbour p + 1 too
      if p + 1 < p2 {
        assert !Less(s[p + 1].k, s[p].k) && !Less(s[p2].k, s[p + 1].k);
        LessTotal(s[p + 1].k, k);
      }
      assert s[p + 1].k == s[p].k;
      // no neighbours before q share a key, so that pair is q's or a later one
      assert q <= p + 1;
      if q < p + 1 {
        assert !Less(s[p + 1].k, s[q].k);
      } else {
        LessIrreflexive(k);
      }
    }
  }

  lemma DuplicateClash(es: seq<KV>, matches: string -> bool, s: seq<KV>, q: nat)
    requires forall x :: multiset(s)[x] == if matches(x.k) then multiset(es)[x] else 0
    requires 1 <= q < |s| && s[q].k == s[q - 1].k
    ensures matches(s[q].k) && Duplicated(es, s[q].k)
    ensures Clash(es, matches)
  {
    var i, j := ClashBack(es, matches, s, q - 1, q);
    assert es[i].k == es[j].k && matches(es[i].k);
  }

  /** Sorted with no two neighbours equal: strictly increasing. */
  lemma SortedUnique(s: seq<KV>)
    requires Sorted(s) && forall j :: 1 <= j < |s| ==> s[j].k != s[j - 1].k
    ensures Sorting.Increasing(Keys(s))
  {
    var ks := Keys(s);
    forall j | 0 < j < |ks|
      ensures Less(ks[j - 1], ks[j])
    {
      LessTotal(ks[j - 1], ks[j]);
    }
    Sorting.ChainedIncreasing(ks);
  }

  /** x occurs at two positions when it counts at least twice. */
  lemma {:induction false} TwoPositions(s: seq<KV>, x: KV) returns (i: nat, j: nat)
    requires multiset(s)[x] >= 2
    ensures i < j < |s| && s[i] == x && s[j] == x
    decreases |s|
  {
    assert s == [s[0]] + s[1..];
    if s[0] == x {
      assert x in multiset(s[1..]);
      var q :| 0 <= q < |s[1..]| && s[1..][q] == x;
      i, j := 0, q + 1;
    } else {
      var i', j' := TwoPositions(s[1..], x);
      i, j := i' + 1, j' + 1;
    }
  }

  lemma TwoCount(s: seq<KV>, i: nat, j: nat)
    requires i < j < |s| && s[i] == s[j]
    ensures multiset(s)[s[i]] >= 2
  {
    assert s == s[..j] + s[j..];
    assert s[i] in s[..j];
    assert s[j] in s[j..];
  }

  /** Two entries of s with one key come from two entries of es with that key. */
  lemma ClashBack(es: seq<KV>, matches: string -> bool, s: seq<KV>, p: nat, q: nat) returns (i: nat, j: nat)
    requires forall x :: multiset(s)[x] == if matches(x.k) then multiset(es)[x] else 0
    requires p < q < |s| && s[p].k == s[q].k
    ensures matches(s[p].k) && i < j < |es| && es[i].k == es[j].k == s[p].k
  {
    assert multiset(s)[s[p]] > 0 && multiset(s)[s[q]] > 0;
    if s[p] == s[q] {
      TwoCount(s, p, q);
      i, j := TwoPositions(es, s[p]);
    } else {
      assert s[p] in multiset(es) && s[q] in multiset(es);
      var a :| 0 <= a < |es| && es[a] == s[p];
      var b :| 0 <= b < |es| && es[b] == s[q];
      if b < a {
        i, j := b, a;
      } else {
        i, j := a, b;
      }
    }
  }

  /** Two entries of es with one matching key survive as two entries of s with that key. */
  lemma ClashForward(es: seq<KV>, matches: string -> bool, s: seq<KV>, i: nat, j: nat) returns (p: nat, q: nat)
    requires forall x :: multiset(s)[x] == if matches(x.k) then multiset(es)[x] else 0
    requires i < j < |es| && es[i].k == es[j].k && matches(es[i].k)
    ensures p < q < |s| && s[p].k == s[q].k == es[i].k
  {
    if es[i] == es[j] {
      TwoCount(es, i, j);
      p, q := TwoPositions(s, es[i]);
    } else {
      assert multiset(es)[es[i]] > 0 && multiset(es)[es[j]] > 0;
      assert es[i] in multiset(s) && es[j] in multiset(s);
      var a :| 0 <= a < |s| && s[a] == es[i];
      var b :| 0 <= b < |s| && s[b] == es[j];
      if b < a {
        p, q := b, a;
      } else {
        p, q := a, b;
      }
    }
  }

  /** Entries with strictly increasing keys leave no room for a clash among the effects they came from. */
  lemma NoClash(es: seq<KV>, matches: string -> bool, s: seq<KV>)
    requires forall x :: multiset(s)[x] == if matches(x.k) then multiset(es)[x] else 0
    requires Sorting.Increasing(Keys(s))
    ensures !Clash(es, matches)
  {
    if Clash(es, matches) {
      var i, j :| 0 <= i < j < |es| && es[i].k == es[j].k && matches(es[i].k);
      var p, q := ClashForward(es, matches, s, i, j);
      assert Less(Keys(s)[p], Keys(s)[q]);
      LessIrreflexive(s[p].k);
    }
  }

  // ---------------------------------------------------------------------
  // The baseline side: the order check of Params.diff, then the filter.

  /** The order check from index i on: the first entry whose key is not above the one before it. */
  function FirstDisorder(lt: seq<KV>, i: nat): (r: Option<nat>)
    requires i >= 1
    ensures r.None? <==> forall j :: i <= j < |lt| ==> Less(lt[j - 1].k, lt[j].k)
    ensures r.Some? ==> i <= r.value < |lt| && !Less(lt[r.value - 1].k, lt[r.value].k)
    ensures r.Some? ==> forall j :: i <= j < r.value ==> Less(lt[j - 1].k, lt[j].k)
    decreases |lt| - i
  {
    if i >= |lt| then None
    else if !Less(lt[i - 1].k, lt[i].k) then Some(i)
    else FirstDisorder(lt, i + 1)
  }

  /**
   * The saved entries as Params.diff uses them: refused with the index of
   * the first key out of order, otherwise filtered.
   */
  function Baseline(lt: seq<KV>, matches: string -> bool): (r: Result<seq<KV>, nat>)
    ensures r.Err? <==> !Sorting.Increasing(Keys(lt))
    ensures r.Err? ==> 1 <= r.error < |lt| && Sorting.Increasing(Keys(lt[..r.error])) && !Less(lt[r.error - 1].k, lt[r.error].k)
    ensures r.Ok? ==> Sorting.Increasing(Keys(r.value))
    ensures r.Ok? ==> forall x :: multiset(r.value)[x] == if matches(x.k) then multiset(lt)[x] else 0
  {
    match FirstDisorder(lt, 1)
    case Some(i) =>
      DisorderAt(lt, i);
      Err(i)
    case None =>
      Sorting.ChainedIncreasing(Keys(lt));
      SelectIncreasing(lt, matches);
      Ok(Select(lt, matches))
  }

  lemma DisorderAt(lt: seq<KV>, i: nat)
    requires 1 <= i < |lt| && !Less(lt[i - 1].k, lt[i].k)
    requires forall j :: 1 <= j < i ==> Less(lt[j - 1].k, lt[j].k)
    ensures !Sorting.Increasing(Keys(lt)) && Sorting.Increasing(Keys(lt[..i]))
  {
    var ks := Keys(lt[..i]);
    assert Sorting.Chained(ks);
    Sorting.ChainedIncreasing(ks);
    assert Keys(lt)[i - 1] == lt[i - 1].k && Keys(lt)[i] == lt[i].k;
  }

  /** Filtering entries with strictly increasing keys keeps them strictly increasing. */
  lemma SelectIncreasing(es: seq<KV>, matches: string -> bool)
    requires Sorting.Increasing(Keys(es))
    ensures Sorting.Increasing(Keys(Select(es, matches)))
  {
    IncreasingSorted(es);
    var s := Select(es, matches);
    SelectDistinct(es, matches, s);
    SortedUnique(s);
  }

  /** Strictly increasing keys are in particular sorted. */
  lemma IncreasingSorted(es: seq<KV>)
    requires Sorting.Increasing(Keys(es))
    ensures Sorted(es)
  {
    forall i, j | 0 <= i < j < |es|
      ensures !Less(es[j].k, es[i].k)
    {
      assert Less(Keys(es)[i], Keys(es)[j]);
      LessAsymmetric(es[i].k, es[j].k);
    }
  }

  /** Neighbours of a selection from strictly increasing keys differ. */
  lemma SelectDistinct(es: seq<KV>, matches: string -> bool, s: seq<KV>)
    requires Sorting.Increasing(Keys(es))
    requires forall x :: multiset(s)[x] == if matches(x.k) then multiset(es)[x] else 0
    ensures forall q :: 1 <= q < |s| ==> s[q].k != s[q - 1].k
  {
    forall q | 1 <= q < |s|
      ensures s[q].k != s[q - 1].k
    {
      if s[q].k == s[q - 1].k {
        var i, j := ClashBack(es, matches, s, q - 1, q);
        KeysDiffer(es, i, j);
      }
    }
  }

  lemma KeysDiffer(es: seq<KV>, i: nat, j: nat)
    requires i < j < |es| && Sorting.Increasing(Keys(es))
    ensures es[i].k != es[j].k
  {
    assert Less(Keys(es)[i], Keys(es)[j]);
    LessAsymmetric(es[i].k, es[j].k);
  }

  // ---------------------------------------------------------------------
  // The merge walk of Params.diff.

  /** What the walk records for one key. */
  datatype Change =
    | Deleted(key: string, before: string)
    | Added(key: string, after: string)
    | Changed(key: string, before: string, after: string)

  /** The name the change is recorded under. */
  function Label(c: Change): string {
    match c
    case Deleted(k, _) => k + " (deleted)"
    case Added(k, _) => k + " (added)"
    case Changed(k, _, _) => k + " (changed)"
  }

  /** The two texts andiff.Compute diffs for the change. */
  function Texts(c: Change): (string, string) {
    match c
    case Deleted(_, v) => (v, "")
    case Added(_, v) => ("", v)
    case Changed(_, a, b) => (a, b)
  }

  /**
   * The walk as written: it runs only while both sides have entries left,
   * so the guards for an empty side never fire and whatever remains of
   * the longer side goes unreported. Its length is the n Params.diff returns.
   */
  function WalkAsWritten(lt: seq<KV>, rt: seq<KV>): (r: seq<Change>)
    ensures |lt| == 0 || |rt| == 0 ==> r == []
    decreases |lt| + |rt|
  {
    if |lt| > 0 && |rt| > 0 then
      if |rt| == 0 || (|lt| > 0 && Less(lt[0].k, rt[0].k)) then
        [Deleted(lt[0].k, lt[0].v)] + WalkAsWritten(lt[1..], rt)
      else if |lt| == 0 || (|rt| > 0 && Less(rt[0].k, lt[0].k)) then
        [Added(rt[0].k, rt[0].v)] + WalkAsWritten(lt, rt[1..])
      else if lt[0].k == rt[0].k && lt[0].v == rt[0].v then
        WalkAsWritten(lt[1..], rt[1..])
      else
        [Changed(lt[0].k, lt[0].v, rt[0].v)] + WalkAsWritten(lt[1..], rt[1..])
    else []
  }

  /** The walk as evidently intended: it runs while either side has entries left. */
  function Walk(lt: seq<KV>, rt: seq<KV>): seq<Change>
    decreases |lt| + |rt|
  {
    if |lt| > 0 || |rt| > 0 then
      if |rt| == 0 || (|lt| > 0 && Less(lt[0].k, rt[0].k)) then
        [Deleted(lt[0].k, lt[0].v)] + Walk(lt[1..], rt)
      else if |lt| == 0 || (|rt| > 0 && Less(rt[0].k, lt[0].k)) then
        [Added(rt[0].k, rt[0].v)] + Walk(lt, rt[1..])
      else if lt[0].k == rt[0].k && lt[0].v == rt[0].v then
        Walk(lt[1..], rt[1..])
      else
        [Changed(lt[0].k, lt[0].v, rt[0].v)] + Walk(lt[1..], rt[1..])
    else []
  }

  /**
   * The reference: a key only in the baseline is deleted, a key only in
   * the current dump is added, a key in both with different values is
   * changed, and nothing else is recorded.
   */
  predicate Expected(lt: seq<KV>, rt: seq<KV>, c: Change) {
    match c
    case Deleted(k, v) => KV(k, v) in lt && k !in Keys(rt)
    case Added(k, v) => KV(k, v) in rt && k !in Keys(lt)
    case Changed(k, a, b) => KV(k, a) in lt && KV(k, b) in rt && a != b
  }

  /** What the tail of a strictly increasing side has in common with the whole. */
  lemma HeadFacts(t: seq<KV>)
    requires |t| > 0 && Sorting.Increasing(Keys(t))
    ensures Sorting.Increasing(Keys(t[1..]))
    ensures forall x :: x in t[1..] ==> Less(t[0].k, x.k)
    ensures forall k :: k in Keys(t) <==> k == t[0].k || k in Keys(t[1..])
    ensures forall x :: x in t <==> x == t[0] || x in t[1..]
    ensures forall k, v :: KV(k, v) in t ==> k in Keys(t)
    ensures forall k, v :: KV(k, v) in t[1..] ==> k in Keys(t[1..])
  {
    TailKeys(t);
    TailIncreasing(t);
    HeadBelow(t);
    assert t == [t[0]] + t[1..];
    KeyOfMember(t);
    KeyOfMember(t[1..]);
  }

  lemma TailKeys(t: seq<KV>)
    requires |t| > 0
    ensures Keys(t[1..]) == Keys(t)[1..]
    ensures forall k :: k in Keys(t) <==> k == t[0].k || k in Keys(t[1..])
  {
    var ks := Keys(t);
    assert Keys(t[1..]) == ks[1..];
    assert ks == [t[0].k] + ks[1..];
  }

  lemma TailIncreasing(t: seq<KV>)
    requires |t| > 0 && Sorting.Increasing(Keys(t))
    ensures Sorting.Increasing(Keys(t[1..]))
  {
    TailKeys(t);
    Sorting.IncreasingTail(Keys(t));
  }

  lemma HeadBelow(t: seq<KV>)
    requires |t| > 0 && Sorting.Increasing(Keys(t))
    ensures forall x :: x in t[1..] ==> Less(t[0].k, x.k)
  {
    var ks := Keys(t);
    forall x | x in t[1..]
      ensures Less(t[0].k, x.k)
    {
      var q :| 0 <= q < |t[1..]| && t[1..][q] == x;
      assert ks[0] == t[0].k && ks[q + 1] == x.k;
    }
  }

  /** The key of every entry is among the keys. */
  lemma KeyOfMember(t: seq<KV>)
    ensures forall k, v :: KV(k, v) in t ==> k in Keys(t)
  {
    forall k, v | KV(k, v) in t
      ensures k in Keys(t)
    {
      var q :| 0 <= q < |t| && t[q] == KV(k, v);
      assert Keys(t)[q] == k;
    }
  }

  /** A key below the first key of a strictly increasing side is not on it. */
  lemma BelowHead(t: seq<KV>, k: string)
    requires |t| > 0 && Sorting.Increasing(Keys(t)) && Less(k, t[0].k)
    ensures k !in Keys(t)
  {
    if k in Keys(t) {
      var q :| 0 <= q < |t| && Keys(t)[q] == k;
      if q == 0 {
        LessIrreflexive(k);
      } else {
        assert Less(Keys(t)[0], Keys(t)[q]);
        LessAsymmetric(k, t[0].k);
      }
    }
  }

  lemma StepDeleted(lt: seq<KV>, rt: seq<KV>, c: Change, w: seq<Change>)
    requires Sorting.Increasing(Keys(lt)) && Sorting.Increasing(Keys(rt))
    requires |lt| > 0 && (|rt| == 0 || Less(lt[0].k, rt[0].k))
    requires c in w <==> Expected(lt[1..], rt, c)
    ensures c in [Deleted(lt[0].k, lt[0].v)] + w <==> Expected(lt, rt, c)
  {
    HeadFacts(lt);
    if |rt| > 0 {
      BelowHead(rt, lt[0].k);
      HeadFacts(rt);
    }
    assert lt[0].k !in Keys(rt);
    assert KV(lt[0].k, lt[0].v) == lt[0];
  }

  lemma StepAdded(lt: seq<KV>, rt: seq<KV>, c: Change, w: seq<Change>)
    requires Sorting.Increasing(Keys(lt)) && Sorting.Increasing(Keys(rt))
    requires |rt| > 0 && (|lt| == 0 || Less(rt[0].k, lt[0].k))
    requires c in w <==> Expected(lt, rt[1..], c)
    ensures c in [Added(rt[0].k, rt[0].v)] + w <==> Expected(lt, rt, c)
  {
    HeadFacts(rt);
    if |lt| > 0 {
      BelowHead(lt, rt[0].k);
      HeadFacts(lt);
    }
    assert rt[0].k !in Keys(lt);
    assert KV(rt[0].k, rt[0].v) == rt[0];
  }

  lemma StepSame(lt: seq<KV>, rt: seq<KV>, c: Change, w: seq<Change>)
    requires Sorting.Increasing(Keys(lt)) && Sorting.Increasing(Keys(rt))
    requires |lt| > 0 && |rt| > 0 && lt[0].k == rt[0].k
    requires c in w <==> Expected(lt[1..], rt[1..], c)
    ensures lt[0].v == rt[0].v ==> (c in w <==> Expected(lt, rt, c))
    ensures lt[0].v != rt[0].v ==> (c in [Changed(lt[0].k, lt[0].v, rt[0].v)] + w <==> Expected(lt, rt, c))
  {
    HeadFacts(lt);
    HeadFacts(rt);
    var k0 := lt[0].k;
    assert forall x :: x in lt[1..] ==> x.k != k0 by {
      forall x | x in lt[1..]
        ensures x.k != k0
      {
        LessAsymmetric(k0, x.k);
      }
    }
    assert forall x :: x in rt[1..] ==> x.k != k0 by {
      forall x | x in rt[1..]
        ensures x.k != k0
      {
        LessAsymmetric(k0, x.k);
      }
    }
    assert KV(lt[0].k, lt[0].v) == lt[0] && KV(rt[0].k, rt[0].v) == rt[0];
  }

  /** The corrected walk records exactly the expected changes, on strictly increasing sides. */
  lemma {:induction false} WalkMember(lt: seq<KV>, rt: seq<KV>, c: Change)
    requires Sorting.Increasing(Keys(lt)) && Sorting.Increasing(Keys(rt))
    ensures c in Walk(lt, rt) <==> Expected(lt, rt, c)
    decreases |lt| + |rt|
  {
    if |lt| == 0 && |rt| == 0 {
    } else if |rt| == 0 || (|lt| > 0 && Less(lt[0].k, rt[0].k)) {
      HeadFacts(lt);
      WalkMember(lt[1..], rt, c);
      StepDeleted(lt, rt, c, Walk(lt[1..], rt));
    } else if |lt| == 0 || Less(rt[0].k, lt[0].k) {
      HeadFacts(rt);
      WalkMember(lt, rt[1..], c);
      StepAdded(lt, rt, c, Walk(lt, rt[1..]));
    } else {
      LessTotal(lt[0].k, rt[0].k);
      HeadFacts(lt);
      HeadFacts(rt);
      WalkMember(lt[1..], rt[1..], c);
      StepSame(lt, rt, c, Walk(lt[1..], rt[1..]));
    }
  }

  /** On strictly increasing sides, the walk records every expected change and nothing else. */
  lemma WalkExact(lt: seq<KV>, rt: seq<KV>)
    requires Sorting.Increasing(Keys(lt)) && Sorting.Increasing(Keys(rt))
    ensures forall c :: c in Walk(lt, rt) <==> Expected(lt, rt, c)
  {
    forall c
      ensures c in Walk(lt, rt) <==> Expected(lt, rt, c)
    {
      WalkMember(lt, rt, c);
    }
  }

  /** The corrected walk records nothing exactly when both sides are the same, in any order. */
  lemma {:induction false} WalkEmpty(lt: seq<KV>, rt: seq<KV>)
    ensures |Walk(lt, rt)| == 0 <==> lt == rt
    decreases |lt| + |rt|
  {
    if |lt| == 0 && |rt| == 0 {
    } else if |rt| == 0 || (|lt| > 0 && Less(lt[0].k, rt[0].k)) {
      if |rt| > 0 {
        LessIrreflexive(lt[0].k);
        assert lt[0] != rt[0];
      }
    } else if |lt| == 0 || Less(rt[0].k, lt[0].k) {
      if |lt| > 0 {
        LessIrreflexive(rt[0].k);
        assert lt[0] != rt[0];
      }
    } else {
      LessTotal(lt[0].k, rt[0].k);
      if lt[0].v == rt[0].v {
        WalkEmpty(lt[1..], rt[1..]);
        assert lt[0] == rt[0];
        assert lt == [lt[0]] + lt[1..] && rt == [rt[0]] + rt[1..];
      } else {
        assert lt[0] != rt[0];
      }
    }
  }

  /** As written, the walk reports a prefix of what the corrected walk reports. */
  lemma {:induction false} WalkAsWrittenPrefix(lt: seq<KV>, rt: seq<KV>)
    ensures |WalkAsWritten(lt, rt)| <= |Walk(lt, rt)|
    ensures WalkAsWritten(lt, rt) == Walk(lt, rt)[..|WalkAsWritten(lt, rt)|]
    decreases |lt| + |rt|
  {
    if |lt| > 0 && |rt| > 0 {
      if Less(lt[0].k, rt[0].k) {
        WalkAsWrittenPrefix(lt[1..], rt);
      } else if Less(rt[0].k, lt[0].k) {
        WalkAsWrittenPrefix(lt, rt[1..]);
      } else {
        WalkAsWrittenPrefix(lt[1..], rt[1..]);
      }
    }
  }

  /** A key added after the last baseline key is not reported as written, and the walk counts zero. */
  lemma TrailingAddedLost(e: KV, f: KV)
    requires Less(e.k, f.k)
    ensures WalkAsWritten([e], [e, f]) == []
    ensures Walk([e], [e, f]) == [Added(f.k, f.v)]
  {
    LessIrreflexive(e.k);
    assert [e][1..] == [] && [e, f][1..] == [f];
    assert Walk([], [f]) == [Added(f.k, f.v)] + Walk([], []);
  }

  /** A baseline key after the last current key is not reported as written either. */
  lemma TrailingDeletedLost(e: KV, f: KV)
    requires Less(e.k, f.k)
    ensures WalkAsWritten([e, f], [e]) == []
    ensures Walk([e, f], [e]) == [Deleted(f.k, f.v)]
  {
    LessIrreflexive(e.k);
    assert [e][1..] == [] && [e, f][1..] == [f];
    assert Walk([f], []) == [Deleted(f.k, f.v)] + Walk([], []);
  }

  /** The keys the changes are recorded under, in order. */
  function ChangeKeys(cs: seq<Change>): (ks: seq<string>)
    ensures |ks| == |cs| && forall i :: 0 <= i < |cs| ==> ks[i] == cs[i].key
  {
    seq(|cs|, i requires 0 <= i < |cs| => cs[i].key)
  }

  /** A key below every key of an increasing list can be put in front of it. */
  lemma PrependIncreasing(h: Change, cs: seq<Change>)
    requires Sorting.Increasing(ChangeKeys(cs))
    requires forall c :: c in cs ==> Less(h.key, c.key)
    ensures Sorting.Increasing(ChangeKeys([h] + cs))
  {
    var ks := ChangeKeys([h] + cs);
    forall i, j | 0 <= i < j < |ks|
      ensures Less(ks[i], ks[j])
    {
      assert ks[j] == cs[j - 1].key && cs[j - 1] in cs;
      if i > 0 {
        assert ks[i] == ChangeKeys(cs)[i - 1] && ks[j] == ChangeKeys(cs)[j - 1];
      }
    }
  }

  /** The walk only records keys of its two sides. */
  lemma {:induction false} WalkAbove(lt: seq<KV>, rt: seq<KV>, b: string)
    requires forall x :: x in lt ==> Less(b, x.k)
    requires forall x :: x in rt ==> Less(b, x.k)
    ensures forall c :: c in Walk(lt, rt) ==> Less(b, c.key)
    decreases |lt| + |rt|
  {
    if |lt| > 0 || |rt| > 0 {
      if |rt| == 0 || (|lt| > 0 && Less(lt[0].k, rt[0].k)) {
        assert lt[0] in lt;
        WalkAbove(lt[1..], rt, b);
      } else if |lt| == 0 || (|rt| > 0 && Less(rt[0].k, lt[0].k)) {
        assert rt[0] in rt;
        WalkAbove(lt, rt[1..], b);
      } else {
        assert lt[0] in lt;
        WalkAbove(lt[1..], rt[1..], b);
      }
    }
  }

  /** The walk records each key at most once, in increasing order. */
  /** Every key of rt is above k when its first one is. */
  lemma AboveAll(k: string, rt: seq<KV>)
    requires |rt| > 0 && Sorting.Increasing(Keys(rt)) && Less(k, rt[0].k)
    ensures forall x :: x in rt ==> Less(k, x.k)
  {
    HeadFacts(rt);
    forall x | x in rt ensures Less(k, x.k) {
      if x != rt[0] {
        LessTransitive(k, rt[0].k, x.k);
      }
    }
  }

  /** The walk records each key at most once, in increasing order. */
  lemma {:induction false} WalkIncreasing(lt: seq<KV>, rt: seq<KV>)
    requires Sorting.Increasing(Keys(lt)) && Sorting.Increasing(Keys(rt))
    ensures Sorting.Increasing(ChangeKeys(Walk(lt, rt)))
    decreases |lt| + |rt|
  {
    if |lt| > 0 || |rt| > 0 {
      if |rt| == 0 || (|lt| > 0 && Less(lt[0].k, rt[0].k)) {
        HeadFacts(lt);
        if |rt| > 0 {
          AboveAll(lt[0].k, rt);
        }
        WalkIncreasing(lt[1..], rt);
        WalkAbove(lt[1..], rt, lt[0].k);
        PrependIncreasing(Deleted(lt[0].k, lt[0].v), Walk(lt[1..], rt));
      } else if |lt| == 0 || (|rt| > 0 && Less(rt[0].k, lt[0].k)) {
        HeadFacts(rt);
        if |lt| > 0 {
          AboveAll(rt[0].k, lt);
        }
        WalkIncreasing(lt, rt[1..]);
        WalkAbove(lt, rt[1..], rt[0].k);
        PrependIncreasing(Added(rt[0].k, rt[0].v), Walk(lt, rt[1..]));
      } else {
        LessTotal(lt[0].k, rt[0].k);
        HeadFacts(lt);
        HeadFacts(rt);
        WalkIncreasing(lt[1..], rt[1..]);
        if lt[0].v != rt[0].v {
          WalkAbove(lt[1..], rt[1..], lt[0].k);
          PrependIncreasing(Changed(lt[0].k, lt[0].v, rt[0].v), Walk(lt[1..], rt[1..]));
        }
      }
    }
  }

  // ---------------------------------------------------------------------
  // The whole comparison.

  /** Why the comparison stops: a duplicated current key, or a saved key out of order. */
  datatype DiffError = Duplicate(key: string) | OutOfOrder(index: nat)

  /**
   * Run's preparation of the current effects, then Params.diff: the order
   * check of the saved entries, the filter, the corrected walk. The number
   * Params.diff returns is the length of the list.
   */
  function Diff(saved: seq<KV>, effects: seq<KV>, matches: string -> bool): (r: Result<seq<Change>, DiffError>)
    ensures r.Err? <==> Clash(effects, matches) || !Sorting.Increasing(Keys(saved))
    ensures r.Ok? ==> forall c :: c in r.value <==>
      Expected(Baseline(saved, matches).value, Current(effects, matches).value, c)
    ensures r.Ok? ==> (|r.value| == 0 <==> Baseline(saved, matches).value == Current(effects, matches).value)
    ensures r.Ok? ==> Sorting.Increasing(ChangeKeys(r.value))
  {
    match Current(effects, matches)
    case Err(k) => Err(Duplicate(k))
    case Ok(rt) =>
      match Baseline(saved, matches)
      case Err(i) => Err(OutOfOrder(i))
      case Ok(lt) =>
        WalkExact(lt, rt);
        WalkEmpty(lt, rt);
        WalkIncreasing(lt, rt);
        Ok(Walk(lt, rt))
  }

  /** The same comparison with the walk as written. */
  function DiffAsWritten(saved: seq<KV>, effects: seq<KV>, matches: string -> bool): (r: Result<seq<Change>, DiffError>)
    ensures r.Err? <==> Clash(effects, matches) || !Sorting.Increasing(Keys(saved))
    ensures r.Ok? ==> |r.value| <= |Diff(saved, effects, matches).value|
  {
    match Current(effects, matches)
    case Err(k) => Err(Duplicate(k))
    case Ok(rt) =>
      match Baseline(saved, matches)
      case Err(i) => Err(OutOfOrder(i))
      case Ok(lt) =>
        WalkAsWrittenPrefix(lt, rt);
        Ok(WalkAsWritten(lt, rt))
  }
}
