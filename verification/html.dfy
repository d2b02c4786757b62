/**
 * The data part of internal/fmtdiff/html.go: the formatter interns every
 * line of every diff into one sorted table, and each diff is written as
 * indices into that table plus its ops as flat integer triples. The page
 * around it (the embedded header and script, HTML escaping) is not part
 * of this model.
 */
module Html {
  import opened Wrappers
  import opened Sorting
  import AnDiff

  /** A diff under its name, in the order Add saw it. */
  datatype Named = Named(name: string, diff: AnDiff.Diff)

  /**
   * The formatter: the set of distinct lines seen (the keys of the
   * source's map, whose values only matter once the table is sorted) and
   * the named diffs.
   */
  datatype Formatter = Formatter(lines: set<string>, diffs: seq<Named>)

  const Empty := Formatter({}, [])

  /** Every line of every recorded diff is in the line set. */
  ghost predicate Interned(f: Formatter) {
    forall e, y :: 0 <= e < |f.diffs| && (y in f.diffs[e].diff.lt || y in f.diffs[e].diff.rt) ==> y in f.lines
  }

  /** HTMLFormatter.Add: record the diff's lines and append the diff. */
  function Add(f: Formatter, name: string, d: AnDiff.Diff): (f': Formatter)
    ensures |f'.diffs| == |f.diffs| + 1 && f'.diffs[..|f.diffs|] == f.diffs
    ensures f'.diffs[|f.diffs|] == Named(name, d)
    ensures f.lines <= f'.lines
    ensures forall y :: y in f'.lines <==> y in f.lines || y in d.lt || y in d.rt
    ensures Interned(f) ==> Interned(f')
  {
    var f' := Formatter(f.lines + (set y | y in d.lt) + (set y | y in d.rt), f.diffs + [Named(name, d)]);
    assert forall e :: 0 <= e < |f.diffs| ==> f'.diffs[e] == f.diffs[e];
    f'
  }

  /** However diffs were added, every line is interned. */
  lemma AddInterns(f: Formatter, name: string, d: AnDiff.Diff)
    requires Interned(f)
    ensures Interned(Add(f, name, d))
    ensures forall y :: y in d.lt || y in d.rt ==> y in Add(f, name, d).lines
  {
  }

  // ---------------------------------------------------------------------
  // The width of the line column.

  const MinWidth: nat := 40
  const MaxWidth: nat := 120

  /**
   * The column width: the longest line, but at least MinWidth and at most
   * MaxWidth. The page header receives the width plus 2.
   */
  method Width(lines: set<string>) returns (width: nat, header: nat)
    ensures MinWidth <= width <= MaxWidth && header == width + 2
    ensures forall y :: y in lines ==> |y| <= width || width == MaxWidth
    ensures width == MinWidth || exists y :: y in lines && |y| >= width
  {
    width := MinWidth;
    var rest := lines;
    while rest != {}
      invariant rest <= lines && MinWidth <= width
      invariant forall y :: y in lines && y !in rest ==> |y| <= width
      invariant width == MinWidth || exists y :: y in lines && |y| == width
      decreases |rest|
    {
      var y :| y in rest;
      if |y| > width {
        width := |y|;
      }
      rest := rest - {y};
    }
    if width > MaxWidth {
      width := MaxWidth;
    }
    header := width + 2;
  }

  // ---------------------------------------------------------------------
  // The line table and the indices into it.

  /** The sorted line table: every recorded line exactly once, in Go's byte order. */
  method Table(lines: set<string>) returns (t: seq<string>)
    ensures Increasing(t)
    ensures forall y :: y in t <==> y in lines
  {
    var found: seq<string> := [];
    var rest := lines;
    while rest != {}
      invariant rest <= lines
      invariant forall y :: y in found <==> y in lines && y !in rest
      decreases |rest|
    {
      var y :| y in rest;
      found := found + [y];
      rest := rest - {y};
    }
    t := Sort(found);
  }

  /** The map from each table line to its position, as the source rewrites its map. */
  method Positions(t: seq<string>) returns (m: map<string, nat>)
    requires Increasing(t)
    ensures forall y :: y in m <==> y in t
    ensures forall i :: 0 <= i < |t| ==> t[i] in m && m[t[i]] == i
  {
    m := map[];
    var i := 0;
    while i < |t|
      invariant 0 <= i <= |t|
      invariant forall y :: y in m <==> y in t[..i]
      invariant forall j :: 0 <= j < i ==> t[j] in m && m[t[j]] == j
    {
      forall j | 0 <= j < i
        ensures t[j] != t[i]
      {
        IncreasingDistinct(t, j, i);
      }
      assert t[..i + 1] == t[..i] + [t[i]];
      m := m[t[i] := i];
      i := i + 1;
    }
    assert t[..i] == t;
  }

  /** The indices written for the lines ls: each names the table line equal to it. */
  function Indices(m: map<string, nat>, t: seq<string>, ls: seq<string>): (r: seq<nat>)
    requires forall y :: y in ls ==> y in m
    requires forall y :: y in m ==> m[y] < |t| && t[m[y]] == y
    ensures |r| == |ls| && forall k :: 0 <= k < |ls| ==> r[k] < |t| && t[r[k]] == ls[k]
  {
    seq(|ls|, k requires 0 <= k < |ls| => m[ls[k]])
  }

  // ---------------------------------------------------------------------
  // The ops as flat triples.

  /** The ops as Del, Add, Keep triples, one after another. */
  function Flat(ops: seq<AnDiff.Op>): (r: seq<int>)
    ensures |r| == 3 * |ops|
    ensures forall k :: 0 <= k < |ops| ==> r[3 * k] == ops[k].del && r[3 * k + 1] == ops[k].add && r[3 * k + 2] == ops[k].keep
    decreases |ops|
  {
    if |ops| == 0 then []
    else
      var init := ops[..|ops| - 1];
      var o := ops[|ops| - 1];
      var r := Flat(init) + [o.del, o.add, o.keep];
      assert forall k :: 0 <= k < |init| ==> init[k] == ops[k];
      r
  }

  /** Read the triples back. */
  function Unflat(r: seq<int>): seq<AnDiff.Op>
    decreases |r|
  {
    if |r| < 3 then [] else Unflat(r[..|r| - 3]) + [AnDiff.Op(r[|r| - 3], r[|r| - 2], r[|r| - 1])]
  }

  /** The triples lose nothing. */
  lemma {:induction false} FlatRoundTrip(ops: seq<AnDiff.Op>)
    ensures Unflat(Flat(ops)) == ops
    decreases |ops|
  {
    if |ops| > 0 {
      var init := ops[..|ops| - 1];
      var r := Flat(ops);
      FlatRoundTrip(init);
      assert r[..|r| - 3] == Flat(init);
      assert ops == init + [ops[|ops| - 1]];
    }
  }

  // ---------------------------------------------------------------------
  // The data WriteTo emits.

  /** One diff as written: its name, indices of its two sides and its flat ops. */
  datatype Entry = Entry(name: string, lt: seq<nat>, rt: seq<nat>, ops: seq<int>)

  /**
   * What HTMLFormatter.WriteTo puts in the page: the width, the sorted
   * table of every recorded line, and each diff, in order, as indices into
   * the table that name the diff's own lines, and its ops as flat triples.
   */
  method Layout(f: Formatter) returns (width: nat, header: nat, t: seq<string>, entries: seq<Entry>)
    requires Interned(f)
    ensures MinWidth <= width <= MaxWidth && header == width + 2
    ensures forall y :: y in f.lines ==> |y| <= width || width == MaxWidth
    ensures width == MinWidth || exists y :: y in f.lines && |y| >= width
    ensures Increasing(t) && forall y :: y in t <==> y in f.lines
    ensures |entries| == |f.diffs|
    ensures forall e :: 0 <= e < |entries| ==> Encodes(t, entries[e], f.diffs[e])
  {
    width, header := Width(f.lines);
    t := Table(f.lines);
    var m := Positions(t);
    entries := Entries(f, t, m);
  }

  /** Each diff as indices into the table and flat ops, in order. */
  method Entries(f: Formatter, t: seq<string>, m: map<string, nat>) returns (entries: seq<Entry>)
    requires Interned(f)
    requires forall y :: y in m <==> y in f.lines
    requires forall y :: y in m ==> m[y] < |t| && t[m[y]] == y
    ensures |entries| == |f.diffs|
    ensures forall e :: 0 <= e < |entries| ==> Encodes(t, entries[e], f.diffs[e])
  {
    entries := [];
    var e := 0;
    while e < |f.diffs|
      invariant 0 <= e <= |f.diffs| && |entries| == e
      invariant forall k :: 0 <= k < e ==> Encodes(t, entries[k], f.diffs[k])
    {
      var d := f.diffs[e].diff;
      var lt := Indices(m, t, d.lt);
      var rt := Indices(m, t, d.rt);
      var entry := Entry(f.diffs[e].name, lt, rt, Flat(d.ops));
      assert Encodes(t, entry, f.diffs[e]);
      entries := entries + [entry];
      e := e + 1;
    }
  }

  /** entry is the named diff nd with its lines as indices into the table t and its ops flattened. */
  predicate Encodes(t: seq<string>, entry: Entry, nd: Named) {
    entry.name == nd.name && entry.ops == Flat(nd.diff.ops)
    && Names(t, entry.lt, nd.diff.lt) && Names(t, entry.rt, nd.diff.rt)
  }

  /** idx names the lines ls in the table t, one index per line. */
  predicate Names(t: seq<string>, idx: seq<nat>, ls: seq<string>) {
    |idx| == |ls| && forall k :: 0 <= k < |ls| ==> idx[k] < |t| && t[idx[k]] == ls[k]
  }

  // ---------------------------------------------------------------------
  // safeWriter.

  /** What one write of the underlying writer reports: bytes written and whether it failed. */
  datatype Outcome = Outcome(n: nat, failed: bool)

  /** The safe writer: bytes written, whether a write failed, and how many writes it made. */
  datatype SafeWriter = SafeWriter(n: nat, failed: bool, writes: nat)

  /** safeWriter.printf: once a write failed, do nothing; otherwise write and add up. */
  function Printf(sw: SafeWriter, o: Outcome): SafeWriter {
    if sw.failed then sw else SafeWriter(sw.n + o.n, o.failed, sw.writes + 1)
  }

  /** A run of printf calls whose writes would report the outcomes os. */
  function Run(sw: SafeWriter, os: seq<Outcome>): SafeWriter
    decreases |os|
  {
    if |os| == 0 then sw else Printf(Run(sw, os[..|os| - 1]), os[|os| - 1])
  }

  /** Bytes reported by the outcomes. */
  function Total(os: seq<Outcome>): nat
    decreases |os|
  {
    if |os| == 0 then 0 else Total(os[..|os| - 1]) + os[|os| - 1].n
  }

  /** The index of the first failed write, if any. */
  function FirstFailure(os: seq<Outcome>): (r: Option<nat>)
    ensures r.Some? ==> r.value < |os| && os[r.value].failed && forall k :: 0 <= k < r.value ==> !os[k].failed
    ensures r.None? ==> forall k :: 0 <= k < |os| ==> !os[k].failed
    decreases |os|
  {
    if |os| == 0 then None
    else if os[0].failed then Some(0)
    else
      var r := FirstFailure(os[1..]);
      if r.None? then None else Some(r.value + 1)
  }

  lemma TotalSnoc(os: seq<Outcome>, i: nat)
    requires i < |os|
    ensures Total(os[..i + 1]) == Total(os[..i]) + os[i].n
  {
    assert os[..i + 1][..i] == os[..i];
  }

  /**
   * A fresh safe writer makes every write up to and including the first
   * failing one and none after it, and reports the bytes of exactly those.
   */
  lemma {:induction false} RunStops(os: seq<Outcome>)
    ensures var sw := Run(SafeWriter(0, false, 0), os);
            var made := match FirstFailure(os) case None => |os| case Some(i) => i + 1;
            sw.writes == made && sw.n == Total(os[..made]) && sw.failed == FirstFailure(os).Some?
    decreases |os|
  {
    if |os| > 0 {
      var init := os[..|os| - 1];
      RunStops(init);
      assert forall k :: 0 <= k < |init| ==> init[k] == os[k];
      var fi, fo := FirstFailure(init), FirstFailure(os);
      assert init[..|init|] == init && os[..|os|] == os;
      if fi.Some? {
        assert fo == fi;
        assert init[..fi.value + 1] == os[..fi.value + 1];
      } else if os[|os| - 1].failed {
        assert fo == Some(|os| - 1);
        TotalSnoc(os, |os| - 1);
      } else {
        assert fo.None?;
        TotalSnoc(os, |os| - 1);
        assert os[..|os|] == os;
      }
    }
  }
}
