/**
 * The unified renderer of internal/fmtdiff/unified.go: a diff becomes
 * context, deletion and addition lines, with long runs of common lines
 * collapsed into "@@ N common lines @@" markers, and the formatter indents
 * each rendering by a tab.
 */
module Unified {
  import Text
  import opened AnDiff
  import KeyValue

  /** The context kept around every change. */
  const Context: nat := 3

  /** One output line: " text", "-text", "+text" or "@@ n common lines @@". */
  datatype ULine = Ctx(text: string) | Del(text: string) | Add(text: string) | Marker(n: int)

  /** The printed form of one output line, newline included. */
  function LineText(l: ULine): string {
    match l
    case Ctx(t) => " " + t + "\n"
    case Del(t) => "-" + t + "\n"
    case Add(t) => "+" + t + "\n"
    case Marker(n) => "@@ " + (if n >= 0 then Text.Itoa(n) else "-" + Text.Itoa(-n)) + " common lines @@\n"
  }

  /** The rendering: every line printed in turn. */
  function Render(out: seq<ULine>): string
    decreases |out|
  {
    if |out| == 0 then "" else Render(out[..|out| - 1]) + LineText(out[|out| - 1])
  }

  // ---------------------------------------------------------------------
  // Op totals.

  function SumDel(ops: seq<Op>): int
    decreases |ops|
  {
    if |ops| == 0 then 0 else SumDel(ops[..|ops| - 1]) + ops[|ops| - 1].del
  }

  function SumAdd(ops: seq<Op>): int
    decreases |ops|
  {
    if |ops| == 0 then 0 else SumAdd(ops[..|ops| - 1]) + ops[|ops| - 1].add
  }

  function SumKeep(ops: seq<Op>): int
    decreases |ops|
  {
    if |ops| == 0 then 0 else SumKeep(ops[..|ops| - 1]) + ops[|ops| - 1].keep
  }

  /** The per-side totals of andiff split into their Del, Add and Keep parts. */
  lemma {:induction false} SumParts(ops: seq<Op>)
    ensures SumLeft(ops) == SumDel(ops) + SumKeep(ops)
    ensures SumRight(ops) == SumAdd(ops) + SumKeep(ops)
    decreases |ops|
  {
    if |ops| > 0 {
      SumParts(ops[..|ops| - 1]);
    }
  }

  lemma SumsSnoc(ops: seq<Op>, i: nat)
    requires i < |ops|
    ensures SumDel(ops[..i + 1]) == SumDel(ops[..i]) + ops[i].del
    ensures SumAdd(ops[..i + 1]) == SumAdd(ops[..i]) + ops[i].add
    ensures SumKeep(ops[..i + 1]) == SumKeep(ops[..i]) + ops[i].keep
  {
    assert ops[..i + 1][..i] == ops[..i];
  }

  predicate NonNeg(ops: seq<Op>) {
    forall k :: 0 <= k < |ops| ==> ops[k].del >= 0 && ops[k].add >= 0 && ops[k].keep >= 0
  }

  /** Prefix totals never exceed the totals. */
  lemma {:induction false} SumsPrefix(ops: seq<Op>, i: nat)
    requires NonNeg(ops) && i <= |ops|
    ensures 0 <= SumDel(ops[..i]) <= SumDel(ops)
    ensures 0 <= SumAdd(ops[..i]) <= SumAdd(ops)
    ensures 0 <= SumKeep(ops[..i]) <= SumKeep(ops)
    decreases |ops| - i
  {
    assert NonNeg(ops[..i]) by {
      forall k | 0 <= k < i
        ensures ops[..i][k].del >= 0 && ops[..i][k].add >= 0 && ops[..i][k].keep >= 0
      {
        assert ops[..i][k] == ops[k];
      }
    }
    SumsNonNeg(ops[..i]);
    if i < |ops| {
      SumsSnoc(ops, i);
      assert ops[i].del >= 0 && ops[i].add >= 0 && ops[i].keep >= 0;
      SumsPrefix(ops, i + 1);
    } else {
      assert ops[..i] == ops;
    }
  }

  lemma {:induction false} SumsNonNeg(ops: seq<Op>)
    requires NonNeg(ops)
    ensures SumDel(ops) >= 0 && SumAdd(ops) >= 0 && SumKeep(ops) >= 0
    decreases |ops|
  {
    if |ops| > 0 {
      SumsNonNeg(ops[..|ops| - 1]);
    }
  }

  /**
   * What Unified needs of a diff: at least one op (it reads Ops[0]), no
   * negative counts, and the counts add up to the lines on each side.
   */
  predicate Renderable(d: Diff) {
    && |d.ops| >= 1 && NonNeg(d.ops)
    && SumDel(d.ops) + SumKeep(d.ops) == |d.lt|
    && SumAdd(d.ops) + SumKeep(d.ops) == |d.rt|
  }

  /** Every diff Compute returns can be rendered. */
  lemma ComputeRenderable(d: Diff, rm: Wrappers.Option<Matcher>)
    requires Script(Filter(d.lt, rm), Filter(d.rt, rm), d.ops)
    requires Filter(d.lt, rm) == Filter(d.rt, rm) ==> d.ops == [Op(0, 0, |d.lt|)]
    ensures Renderable(d)
  {
    var x, y := Filter(d.lt, rm), Filter(d.rt, rm);
    ScriptCounts(x, y, d.ops);
    SumParts(d.ops);
    CoversNonNeg(x, y, d.ops, |x|, |y|);
  }

  lemma {:induction false} CoversNonNeg(x: seq<string>, y: seq<string>, ops: seq<Op>, xi: int, yi: int)
    requires Covers(x, y, ops, xi, yi)
    ensures NonNeg(ops)
    decreases |ops|
  {
    if |ops| > 0 {
      var o := ops[|ops| - 1];
      CoversNonNeg(x, y, ops[..|ops| - 1], xi - o.del - o.keep, yi - o.add - o.keep);
      assert ops == ops[..|ops| - 1] + [o];
    }
  }

  // ---------------------------------------------------------------------
  // What the output says about each side.

  /**
   * The lines of the left side an output line stands for: its text for
   * context and deletions, nothing for additions, n unknown lines for a
   * marker.
   */
  function LeftOf(l: ULine): seq<Wrappers.Option<string>> {
    match l
    case Ctx(t) => [Wrappers.Some(t)]
    case Del(t) => [Wrappers.Some(t)]
    case Add(_) => []
    case Marker(n) => Nones(if n >= 0 then n else 0)
  }

  /**
   * The lines of the right side an output line stands for. Context lines
   * print the left text, so they stand for a right line of unknown text.
   */
  function RightOf(l: ULine): seq<Wrappers.Option<string>> {
    match l
    case Ctx(_) => [Wrappers.None]
    case Del(_) => []
    case Add(t) => [Wrappers.Some(t)]
    case Marker(n) => Nones(if n >= 0 then n else 0)
  }

  function Nones(n: nat): (r: seq<Wrappers.Option<string>>)
    ensures |r| == n && forall k :: 0 <= k < n ==> r[k].None?
  {
    seq(n, _ => Wrappers.None)
  }

  function Somes(s: seq<string>): (r: seq<Wrappers.Option<string>>)
    ensures |r| == |s| && forall k :: 0 <= k < |s| ==> r[k] == Wrappers.Some(s[k])
  {
    seq(|s|, k requires 0 <= k < |s| => Wrappers.Some(s[k]))
  }

  function LeftView(out: seq<ULine>): seq<Wrappers.Option<string>>
    decreases |out|
  {
    if |out| == 0 then [] else LeftView(out[..|out| - 1]) + LeftOf(out[|out| - 1])
  }

  function RightView(out: seq<ULine>): seq<Wrappers.Option<string>>
    decreases |out|
  {
    if |out| == 0 then [] else RightView(out[..|out| - 1]) + RightOf(out[|out| - 1])
  }

  /** v stands for the lines of x in order, wherever it names their text. */
  predicate Agrees(v: seq<Wrappers.Option<string>>, x: seq<string>) {
    |v| == |x| && forall k :: 0 <= k < |v| && v[k].Some? ==> v[k].value == x[k]
  }

  lemma AgreesAppend(v: seq<Wrappers.Option<string>>, w: seq<Wrappers.Option<string>>, x: seq<string>, a: nat, b: nat)
    requires a <= b <= |x| && Agrees(v, x[..a]) && Agrees(w, x[a..b])
    ensures Agrees(v + w, x[..b])
  {
    forall k | 0 <= k < |v + w| && (v + w)[k].Some?
      ensures (v + w)[k].value == x[..b][k]
    {
      if k < |v| {
        assert (v + w)[k] == v[k] && x[..b][k] == x[..a][k];
      } else {
        assert (v + w)[k] == w[k - |v|] && x[..b][k] == x[a..b][k - |v|];
      }
    }
  }

  // ---------------------------------------------------------------------
  // Tallies of the output.

  /** Number of deletion lines. */
  function Dels(out: seq<ULine>): nat
    decreases |out|
  {
    if |out| == 0 then 0 else Dels(out[..|out| - 1]) + (if out[|out| - 1].Del? then 1 else 0)
  }

  /** Number of addition lines. */
  function Adds(out: seq<ULine>): nat
    decreases |out|
  {
    if |out| == 0 then 0 else Adds(out[..|out| - 1]) + (if out[|out| - 1].Add? then 1 else 0)
  }

  /** Number of context lines. */
  function Ctxs(out: seq<ULine>): nat
    decreases |out|
  {
    if |out| == 0 then 0 else Ctxs(out[..|out| - 1]) + (if out[|out| - 1].Ctx? then 1 else 0)
  }

  /** Number of markers. */
  function Markers(out: seq<ULine>): nat
    decreases |out|
  {
    if |out| == 0 then 0 else Markers(out[..|out| - 1]) + (if out[|out| - 1].Marker? then 1 else 0)
  }

  /** The common lines the markers report, in total. */
  function Hidden(out: seq<ULine>): int
    decreases |out|
  {
    if |out| == 0 then 0
    else Hidden(out[..|out| - 1]) + (if out[|out| - 1].Marker? then out[|out| - 1].n else 0)
  }

  /** Views and tallies are compatible with appending output. */
  lemma OutAppend(a: seq<ULine>, b: seq<ULine>)
    ensures LeftView(a + b) == LeftView(a) + LeftView(b)
    ensures RightView(a + b) == RightView(a) + RightView(b)
    ensures Dels(a + b) == Dels(a) + Dels(b) && Adds(a + b) == Adds(a) + Adds(b)
    ensures Ctxs(a + b) == Ctxs(a) + Ctxs(b) && Markers(a + b) == Markers(a) + Markers(b)
    ensures Hidden(a + b) == Hidden(a) + Hidden(b)
  {
    ViewsAppend(a, b);
    CountsAppend(a, b);
    MarkersAppend(a, b);
  }

  lemma ViewsAppend(a: seq<ULine>, b: seq<ULine>)
    ensures LeftView(a + b) == LeftView(a) + LeftView(b)
    ensures RightView(a + b) == RightView(a) + RightView(b)
  {
    LeftAppend(a, b);
    RightAppend(a, b);
  }

  lemma {:induction false} LeftAppend(a: seq<ULine>, b: seq<ULine>)
    ensures LeftView(a + b) == LeftView(a) + LeftView(b)
    decreases |b|
  {
    if |b| == 0 {
      assert a + b == a;
    } else {
      var c, l := b[..|b| - 1], b[|b| - 1];
      assert (a + b)[..|a + b| - 1] == a + c;
      assert (a + b)[|a + b| - 1] == l;
      LeftAppend(a, c);
      var u, v, w := LeftView(a), LeftView(c), LeftOf(l);
      assert LeftView(a + b) == (u + v) + w;
      assert LeftView(b) == v + w;
      assert (u + v) + w == u + (v + w);
    }
  }

  lemma {:induction false} RightAppend(a: seq<ULine>, b: seq<ULine>)
    ensures RightView(a + b) == RightView(a) + RightView(b)
    decreases |b|
  {
    if |b| == 0 {
      assert a + b == a;
    } else {
      var c, l := b[..|b| - 1], b[|b| - 1];
      assert (a + b)[..|a + b| - 1] == a + c;
      assert (a + b)[|a + b| - 1] == l;
      RightAppend(a, c);
      var u, v, w := RightView(a), RightView(c), RightOf(l);
      assert RightView(a + b) == (u + v) + w;
      assert RightView(b) == v + w;
      assert (u + v) + w == u + (v + w);
    }
  }

  lemma {:induction false} CountsAppend(a: seq<ULine>, b: seq<ULine>)
    ensures Dels(a + b) == Dels(a) + Dels(b) && Adds(a + b) == Adds(a) + Adds(b)
    ensures Ctxs(a + b) == Ctxs(a) + Ctxs(b)
    decreases |b|
  {
    if |b| == 0 {
      assert a + b == a;
    } else {
      var c := b[..|b| - 1];
      assert (a + b)[..|a + b| - 1] == a + c;
      assert (a + b)[|a + b| - 1] == b[|b| - 1];
      CountsAppend(a, c);
    }
  }

  lemma {:induction false} MarkersAppend(a: seq<ULine>, b: seq<ULine>)
    ensures Markers(a + b) == Markers(a) + Markers(b)
    ensures Hidden(a + b) == Hidden(a) + Hidden(b)
    decreases |b|
  {
    if |b| == 0 {
      assert a + b == a;
    } else {
      var c := b[..|b| - 1];
      assert (a + b)[..|a + b| - 1] == a + c;
      assert (a + b)[|a + b| - 1] == b[|b| - 1];
      MarkersAppend(a, c);
    }
  }

  /** The printing loops: one line of the given kind per line of s. */
  datatype Kind = KCtx | KDel | KAdd

  function Make(k: Kind, t: string): ULine {
    match k
    case KCtx => Ctx(t)
    case KDel => Del(t)
    case KAdd => Add(t)
  }

  function Lines(s: seq<string>, k: Kind): (r: seq<ULine>)
    ensures |r| == |s| && forall j :: 0 <= j < |s| ==> r[j] == Make(k, s[j])
  {
    seq(|s|, j requires 0 <= j < |s| => Make(k, s[j]))
  }

  /** What a block of printed lines says about each side. */
  lemma LinesFacts(s: seq<string>, k: Kind)
    ensures LeftView(Lines(s, k)) == if k == KAdd then [] else Somes(s)
    ensures RightView(Lines(s, k)) == (match k case KCtx => Nones(|s|) case KDel => [] case KAdd => Somes(s))
    ensures Dels(Lines(s, k)) == (if k == KDel then |s| else 0)
    ensures Adds(Lines(s, k)) == (if k == KAdd then |s| else 0)
    ensures Ctxs(Lines(s, k)) == (if k == KCtx then |s| else 0)
    ensures Markers(Lines(s, k)) == 0 && Hidden(Lines(s, k)) == 0
  {
    LinesViews(s, k);
    LinesCounts(s, k);
  }

  lemma LinesViews(s: seq<string>, k: Kind)
    ensures LeftView(Lines(s, k)) == if k == KAdd then [] else Somes(s)
    ensures RightView(Lines(s, k)) == (match k case KCtx => Nones(|s|) case KDel => [] case KAdd => Somes(s))
  {
    LinesLeft(s, k);
    LinesRight(s, k);
  }

  lemma {:induction false} LinesLeft(s: seq<string>, k: Kind)
    ensures LeftView(Lines(s, k)) == if k == KAdd then [] else Somes(s)
    decreases |s|
  {
    if |s| > 0 {
      var p := s[..|s| - 1];
      LinesLeft(p, k);
      assert Lines(s, k)[..|s| - 1] == Lines(p, k);
      assert Lines(s, k)[|s| - 1] == Make(k, s[|s| - 1]);
      if k != KAdd {
        assert Somes(s) == Somes(p) + [Wrappers.Some(s[|s| - 1])];
      }
    }
  }

  lemma {:induction false} LinesRight(s: seq<string>, k: Kind)
    ensures RightView(Lines(s, k)) == (match k case KCtx => Nones(|s|) case KDel => [] case KAdd => Somes(s))
    decreases |s|
  {
    if |s| > 0 {
      var p := s[..|s| - 1];
      LinesRight(p, k);
      assert Lines(s, k)[..|s| - 1] == Lines(p, k);
      assert Lines(s, k)[|s| - 1] == Make(k, s[|s| - 1]);
      match k
      case KCtx => assert Nones(|s|) == Nones(|p|) + [Wrappers.None];
      case KDel =>
      case KAdd => assert Somes(s) == Somes(p) + [Wrappers.Some(s[|s| - 1])];
    } else {
      assert Somes(s) == [] && Nones(0) == [];
    }
  }

  lemma {:induction false} LinesCounts(s: seq<string>, k: Kind)
    ensures Dels(Lines(s, k)) == (if k == KDel then |s| else 0)
    ensures Adds(Lines(s, k)) == (if k == KAdd then |s| else 0)
    ensures Ctxs(Lines(s, k)) == (if k == KCtx then |s| else 0)
    ensures Markers(Lines(s, k)) == 0 && Hidden(Lines(s, k)) == 0
    decreases |s|
  {
    if |s| > 0 {
      var p := s[..|s| - 1];
      LinesCounts(p, k);
      assert Lines(s, k)[..|s| - 1] == Lines(p, k);
    }
  }

  // ---------------------------------------------------------------------
  // Which runs of common lines collapse.

  /** A leading op that only keeps lines, more than Context + 3 of them. */
  predicate LeadCollapses(ops: seq<Op>)
    requires |ops| >= 1
  {
    ops[0].del == 0 && ops[0].add == 0 && ops[0].keep > Context + 3
  }

  /** The ops after the leading one, when that one collapses. */
  function Rest(ops: seq<Op>): seq<Op>
    requires |ops| >= 1
  {
    if LeadCollapses(ops) then ops[1..] else ops
  }

  /** Keep runs longer than 2 * Context + 3. */
  function LongRuns(ops: seq<Op>): nat
    decreases |ops|
  {
    if |ops| == 0 then 0 else LongRuns(ops[..|ops| - 1]) + (if ops[|ops| - 1].keep > 2 * Context + 3 then 1 else 0)
  }

  /** The Keep still to print after the last op: its Keep, or Context after a lone collapsed lead. */
  function FinalKeep(ops: seq<Op>): int
    requires |ops| >= 1
  {
    var rest := Rest(ops);
    if |rest| == 0 then Context else rest[|rest| - 1].keep
  }

  /**
   * How many markers the rendering has: a collapsed lead, every keep run
   * between changes longer than 2 * Context + 3, and a final run longer
   * than Context + 3.
   */
  function Collapsed(ops: seq<Op>): nat
    requires |ops| >= 1
  {
    var rest := Rest(ops);
    (if LeadCollapses(ops) then 1 else 0)
    + (if |rest| == 0 then 0 else LongRuns(rest[..|rest| - 1]))
    + (if FinalKeep(ops) > Context + 3 then 1 else 0)
  }


  lemma LongRunsSnoc(s: seq<Op>, k: nat)
    requires k < |s|
    ensures LongRuns(s[..k + 1]) == LongRuns(s[..k]) + (if s[k].keep > 2 * Context + 3 then 1 else 0)
  {
    assert s[..k + 1][..k] == s[..k];
  }

  // ---------------------------------------------------------------------
  // The renderer.

  /**
   * The printed lines describe the first xi lines on the left and the
   * first yi on the right, and every marker hides more than Context lines.
   */
  ghost predicate Describes(d: Diff, out: seq<ULine>, xi: int, yi: int) {
    && 0 <= xi <= |d.lt| && 0 <= yi <= |d.rt|
    && Agrees(LeftView(out), d.lt[..xi]) && Agrees(RightView(out), d.rt[..yi])
    && Wide(out)
  }

  /** Every marker hides more than Context lines. */
  predicate Wide(out: seq<ULine>) {
    forall k :: 0 <= k < |out| && out[k].Marker? ==> out[k].n > Context
  }

  lemma WideAppend(a: seq<ULine>, b: seq<ULine>)
    requires Wide(a) && Wide(b)
    ensures Wide(a + b)
  {
    forall k | 0 <= k < |a + b| && (a + b)[k].Marker?
      ensures (a + b)[k].n > Context
    {
      if k >= |a| {
        assert (a + b)[k] == b[k - |a|];
      }
    }
  }

  /**
   * The cursors after the ops in done, with keep common lines of the last
   * of them still to print.
   */
  ghost predicate Accounts(done: seq<Op>, out: seq<ULine>, xi: int, yi: int, keep: int) {
    && 0 <= keep
    && xi + keep == SumDel(done) + SumKeep(done) && yi + keep == SumAdd(done) + SumKeep(done)
    && Dels(out) == SumDel(done) && Adds(out) == SumAdd(done)
    && Ctxs(out) + Hidden(out) + keep == SumKeep(done)
  }

  /** Appending lines that describe the next lines of each side keeps Describes. */
  lemma DescribesAppend(d: Diff, out: seq<ULine>, more: seq<ULine>, xi: int, yi: int, xi': int, yi': int)
    requires Describes(d, out, xi, yi) && xi <= xi' <= |d.lt| && yi <= yi' <= |d.rt| && Wide(more)
    requires Agrees(LeftView(more), d.lt[xi..xi']) && Agrees(RightView(more), d.rt[yi..yi'])
    ensures Describes(d, out + more, xi', yi')
  {
    OutAppend(out, more);
    AgreesAppend(LeftView(out), LeftView(more), d.lt, xi, xi');
    AgreesAppend(RightView(out), RightView(more), d.rt, yi, yi');
    WideAppend(out, more);
  }

  /** Somes and Nones of a slice agree with it. */
  lemma AgreesSomes(z: seq<string>, a: nat, b: nat)
    requires a <= b <= |z|
    ensures Agrees(Somes(z[a..b]), z[a..b]) && Agrees(Nones(b - a), z[a..b]) && Agrees([], z[a..a])
  {
  }

  lemma WideLines(z: seq<string>, k: Kind)
    ensures Wide(Lines(z, k))
  {
  }

  /** No marker from position i on. */
  predicate PlainFrom(s: seq<ULine>, i: nat) {
    forall k :: i <= k < |s| ==> !s[k].Marker?
  }

  /** Extending an extension of a extends a. */
  lemma PrefixTrans(a: seq<ULine>, b: seq<ULine>, c: seq<ULine>)
    requires |a| <= |b| <= |c| && b[..|a|] == a && c[..|b|] == b
    ensures c[..|a|] == a
  {
    assert c[..|a|] == c[..|b|][..|a|];
  }

  /** Two plain extensions in a row make one. */
  lemma PlainTrans(a: seq<ULine>, b: seq<ULine>, c: seq<ULine>)
    requires |a| <= |b| <= |c| && b[..|a|] == a && c[..|b|] == b
    requires PlainFrom(b, |a|) && PlainFrom(c, |b|)
    ensures c[..|a|] == a && PlainFrom(c, |a|)
  {
    PrefixTrans(a, b, c);
    forall k | |a| <= k < |b|
      ensures c[k] == b[k]
    {
      assert c[..|b|][k] == c[k];
    }
  }

  lemma PlainLines(out: seq<ULine>, z: seq<string>, k: Kind)
    ensures (out + Lines(z, k))[..|out|] == out && PlainFrom(out + Lines(z, k), |out|)
  {
    assert (out + Lines(z, k))[..|out|] == out;
    forall j | |out| <= j < |out + Lines(z, k)|
      ensures !(out + Lines(z, k))[j].Marker?
    {
      assert (out + Lines(z, k))[j] == Make(k, z[j - |out|]);
    }
  }

  /**
   * Appending the printed lines of z, of kind k, to out: the output then
   * describes the sides up to xi' and yi', and the tallies grow by |z|
   * for k.
   */
  lemma Printed(d: Diff, out: seq<ULine>, out': seq<ULine>, z: seq<string>, k: Kind, xi: int, yi: int, xi': int, yi': int)
    requires Describes(d, out, xi, yi) && out' == out + Lines(z, k)
    requires xi <= xi' <= |d.lt| && yi <= yi' <= |d.rt|
    requires k == KCtx ==> d.lt[xi..xi'] == z && yi' - yi == |z|
    requires k == KDel ==> d.lt[xi..xi'] == z && yi' == yi
    requires k == KAdd ==> d.rt[yi..yi'] == z && xi' == xi
    ensures Describes(d, out', xi', yi')
    ensures |out'| == |out| + |z| && out'[..|out|] == out && PlainFrom(out', |out|)
    ensures Dels(out') == Dels(out) + (if k == KDel then |z| else 0)
    ensures Adds(out') == Adds(out) + (if k == KAdd then |z| else 0)
    ensures Ctxs(out') == Ctxs(out) + (if k == KCtx then |z| else 0)
    ensures Markers(out') == Markers(out) && Hidden(out') == Hidden(out)
  {
    PrintedTallies(out, z, k);
    PlainLines(out, z, k);
    LinesAgree(d, z, k, xi, yi, xi', yi');
    WideLines(z, k);
    DescribesAppend(d, out, Lines(z, k), xi, yi, xi', yi');
  }

  /** The tallies of out followed by the printed lines of z. */
  lemma PrintedTallies(out: seq<ULine>, z: seq<string>, k: Kind)
    ensures Dels(out + Lines(z, k)) == Dels(out) + (if k == KDel then |z| else 0)
    ensures Adds(out + Lines(z, k)) == Adds(out) + (if k == KAdd then |z| else 0)
    ensures Ctxs(out + Lines(z, k)) == Ctxs(out) + (if k == KCtx then |z| else 0)
    ensures Markers(out + Lines(z, k)) == Markers(out) && Hidden(out + Lines(z, k)) == Hidden(out)
  {
    var l := Lines(z, k);
    LinesCounts(z, k);
    CountsAppend(out, l);
    MarkersAppend(out, l);
  }

  /** The printed lines of z stand for the lines they print on each side. */
  lemma LinesAgree(d: Diff, z: seq<string>, k: Kind, xi: int, yi: int, xi': int, yi': int)
    requires 0 <= xi <= xi' <= |d.lt| && 0 <= yi <= yi' <= |d.rt|
    requires k == KCtx ==> d.lt[xi..xi'] == z && yi' - yi == |z|
    requires k == KDel ==> d.lt[xi..xi'] == z && yi' == yi
    requires k == KAdd ==> d.rt[yi..yi'] == z && xi' == xi
    ensures Agrees(LeftView(Lines(z, k)), d.lt[xi..xi']) && Agrees(RightView(Lines(z, k)), d.rt[yi..yi'])
  {
    LinesViews(z, k);
    AgreesSomes(d.lt, xi, xi');
    AgreesSomes(d.rt, yi, yi');
  }

  /** Print n common lines of the left side as context. */
  method PrintCtx(d: Diff, out: seq<ULine>, xi: int, yi: int, n: int) returns (out': seq<ULine>)
    requires Describes(d, out, xi, yi) && 0 <= n && xi + n <= |d.lt| && yi + n <= |d.rt|
    ensures Describes(d, out', xi + n, yi + n)
    ensures |out'| == |out| + n && out'[..|out|] == out && PlainFrom(out', |out|)
    ensures Dels(out') == Dels(out) && Adds(out') == Adds(out) && Ctxs(out') == Ctxs(out) + n
    ensures Markers(out') == Markers(out) && Hidden(out') == Hidden(out)
  {
    var z := d.lt[xi..xi + n];
    assert |z| == n;
    out' := out + Lines(z, KCtx);
    Printed(d, out, out', z, KCtx, xi, yi, xi + n, yi + n);
  }

  /** Print the n left lines from xi as deletions. */
  method PrintDel(d: Diff, out: seq<ULine>, xi: int, yi: int, n: int) returns (out': seq<ULine>)
    requires Describes(d, out, xi, yi) && 0 <= n && xi + n <= |d.lt|
    ensures Describes(d, out', xi + n, yi)
    ensures |out'| == |out| + n && out'[..|out|] == out && PlainFrom(out', |out|)
    ensures Dels(out') == Dels(out) + n && Adds(out') == Adds(out) && Ctxs(out') == Ctxs(out)
    ensures Markers(out') == Markers(out) && Hidden(out') == Hidden(out)
  {
    var z := d.lt[xi..xi + n];
    assert |z| == n;
    out' := out + Lines(z, KDel);
    Printed(d, out, out', z, KDel, xi, yi, xi + n, yi);
  }

  /** Print the n right lines from yi as additions. */
  method PrintAdd(d: Diff, out: seq<ULine>, xi: int, yi: int, n: int) returns (out': seq<ULine>)
    requires Describes(d, out, xi, yi) && 0 <= n && yi + n <= |d.rt|
    ensures Describes(d, out', xi, yi + n)
    ensures |out'| == |out| + n && out'[..|out|] == out && PlainFrom(out', |out|)
    ensures Dels(out') == Dels(out) && Adds(out') == Adds(out) + n && Ctxs(out') == Ctxs(out)
    ensures Markers(out') == Markers(out) && Hidden(out') == Hidden(out)
  {
    var z := d.rt[yi..yi + n];
    assert |z| == n;
    out' := out + Lines(z, KAdd);
    Printed(d, out, out', z, KAdd, xi, yi, xi, yi + n);
  }

  /** Print a marker for n hidden common lines. */
  method PrintMarker(d: Diff, out: seq<ULine>, xi: int, yi: int, n: int) returns (out': seq<ULine>)
    requires Describes(d, out, xi, yi) && n > Context && xi + n <= |d.lt| && yi + n <= |d.rt|
    ensures Describes(d, out', xi + n, yi + n)
    ensures out' == out + [Marker(n)]
    ensures Dels(out') == Dels(out) && Adds(out') == Adds(out) && Ctxs(out') == Ctxs(out)
    ensures Markers(out') == Markers(out) + 1 && Hidden(out') == Hidden(out) + n
  {
    out' := out + [Marker(n)];
    OutAppend(out, [Marker(n)]);
    assert [Marker(n)][..0] == [];
    AgreesAppend(LeftView(out), Nones(n), d.lt, xi, xi + n);
    AgreesAppend(RightView(out), Nones(n), d.rt, yi, yi + n);
    WideAppend(out, [Marker(n)]);
  }

  /** Rest(ops) is what follows the collapsed lead. */
  function Start(ops: seq<Op>): (n: nat)
    requires |ops| >= 1
    ensures n <= |ops| && Rest(ops) == ops[n..]
  {
    if LeadCollapses(ops) then 1 else 0
  }

  /** Before the next op, a pending run longer than 2 * Context + 3 loses its middle to a marker. */
  method Collapse(d: Diff, out: seq<ULine>, xi: int, yi: int, keep: int) returns (out': seq<ULine>, xi': int, yi': int, keep': int)
    requires Describes(d, out, xi, yi) && 0 <= keep && xi + keep <= |d.lt| && yi + keep <= |d.rt|
    ensures Describes(d, out', xi', yi') && xi' + keep' == xi + keep && yi' + keep' == yi + keep
    ensures Dels(out') == Dels(out) && Adds(out') == Adds(out)
    ensures Ctxs(out') + Hidden(out') + keep' == Ctxs(out) + Hidden(out) + keep
    ensures Markers(out') == Markers(out) + (if keep > 2 * Context + 3 then 1 else 0)
    ensures keep > 2 * Context + 3 ==> keep' == Context
    ensures keep <= 2 * Context + 3 ==> out' == out && keep' == keep
    ensures |out'| >= |out| && out'[..|out|] == out
    ensures |out| < |out'| ==> !out'[|out|].Marker?
  {
    out', xi', yi', keep' := out, xi, yi, keep;
    if keep > 2 * Context + 3 {
      out' := PrintCtx(d, out, xi, yi, Context);
      ghost var mid := out';
      out' := PrintMarker(d, out', xi + Context, yi + Context, keep - 2 * Context);
      assert out'[..|out|] == mid[..|out|];
      xi', yi', keep' := xi + keep - Context, yi + keep - Context, Context;
    }
  }

  /** Print the pending context, then n deletions and m additions. */
  method Change(d: Diff, out: seq<ULine>, xi: int, yi: int, keep: int, n: int, m: int) returns (out': seq<ULine>)
    requires Describes(d, out, xi, yi) && 0 <= keep && 0 <= n && 0 <= m
    requires xi + keep + n <= |d.lt| && yi + keep + m <= |d.rt|
    ensures Describes(d, out', xi + keep + n, yi + keep + m)
    ensures Dels(out') == Dels(out) + n && Adds(out') == Adds(out) + m && Ctxs(out') == Ctxs(out) + keep
    ensures Markers(out') == Markers(out) && Hidden(out') == Hidden(out)
    ensures |out'| == |out| + keep + n + m && out'[..|out|] == out
    ensures PlainFrom(out', |out|)
  {
    var x1, y1 := xi + keep, yi + keep;
    var o1 := PrintCtx(d, out, xi, yi, keep);
    var o2 := PrintDel(d, o1, x1, y1, n);
    out' := PrintAdd(d, o2, x1 + n, y1, m);
    PlainTrans(o1, o2, out');
    PlainTrans(out, o1, out');
  }

  /**
   * One turn of the loop of Unified: collapse a long pending run, print the
   * pending context, then the deletions and additions of op j.
   */
  method Step(d: Diff, j: nat, out: seq<ULine>, xi: int, yi: int, keep: int) returns (out': seq<ULine>, xi': int, yi': int, keep': int)
    requires Renderable(d) && j < |d.ops|
    requires Describes(d, out, xi, yi) && Accounts(d.ops[..j], out, xi, yi, keep)
    ensures Describes(d, out', xi', yi') && Accounts(d.ops[..j + 1], out', xi', yi', keep')
    ensures keep' == d.ops[j].keep
    ensures Markers(out') == Markers(out) + (if keep > 2 * Context + 3 then 1 else 0)
    ensures |out'| >= |out| && out'[..|out|] == out
    ensures |out| < |out'| ==> !out'[|out|].Marker?
    ensures |out'| > 0 && out'[|out'| - 1].Marker? ==> keep == 0 && out' == out
  {
    var op := d.ops[j];
    SumsSnoc(d.ops, j);
    SumsPrefix(d.ops, j + 1);
    var o1, x1, y1, k1 := Collapse(d, out, xi, yi, keep);
    out' := Change(d, o1, x1, y1, k1, op.del, op.add);
    xi', yi', keep' := x1 + k1 + op.del, y1 + k1 + op.add, op.keep;
    PrefixTrans(out, o1, out');
    if |out| < |o1| {
      assert out'[|out|] == o1[|out|] by {
        assert out'[..|o1|][|out|] == out'[|out|];
      }
    }
    if |out'| > 0 && out'[|out'| - 1].Marker? {
      assert |out'| == |o1|;
      assert out' == out'[..|o1|];
    }
  }

  /** A leading run of more than Context + 3 common lines collapses to a marker. */
  method Lead(d: Diff) returns (out: seq<ULine>, xi: int, yi: int, keep: int)
    requires Renderable(d)
    ensures Describes(d, out, xi, yi) && Accounts(d.ops[..Start(d.ops)], out, xi, yi, keep)
    ensures keep == if LeadCollapses(d.ops) then Context else 0
    ensures out == if LeadCollapses(d.ops) then [Marker(d.ops[0].keep - Context)] else []
    ensures Markers(out) == Start(d.ops)
    ensures Walking(d, out, keep, 0, out, xi, yi, keep)
  {
    out, xi, yi, keep := [], 0, 0, 0;
    assert Describes(d, out, 0, 0);
    assert d.ops[..0] == [];
    if LeadCollapses(d.ops) {
      SumsSnoc(d.ops, 0);
      SumsPrefix(d.ops, 1);
      out := PrintMarker(d, out, 0, 0, d.ops[0].keep - Context);
      xi, yi, keep := d.ops[0].keep - Context, d.ops[0].keep - Context, Context;
    }
    LeadWalks(d, out, xi, yi, keep);
  }

  /** What Lead leaves is where the loop of Unified starts. */
  lemma LeadWalks(d: Diff, out: seq<ULine>, xi: int, yi: int, keep: int)
    requires Renderable(d) && Describes(d, out, xi, yi) && Accounts(d.ops[..Start(d.ops)], out, xi, yi, keep)
    requires keep == if LeadCollapses(d.ops) then Context else 0
    requires out == if LeadCollapses(d.ops) then [Marker(d.ops[0].keep - Context)] else []
    ensures Walking(d, out, keep, 0, out, xi, yi, keep)
  {
    assert out[..|out|] == out;
    if LeadCollapses(d.ops) {
      LeadWalksCollapsed(d, out, xi, yi);
    } else {
      LeadWalksPlain(d, out);
    }
  }

  /** A collapsed lead: one marker, Context lines still pending. */
  lemma LeadWalksCollapsed(d: Diff, out: seq<ULine>, xi: int, yi: int)
    requires Renderable(d) && LeadCollapses(d.ops) && Start(d.ops) == 1
    requires Describes(d, out, xi, yi) && Accounts(d.ops[..1], out, xi, yi, Context)
    requires out == [Marker(d.ops[0].keep - Context)] && out[..|out|] == out
    ensures Walking(d, out, Context, 0, out, xi, yi, Context)
  {
    var rest := Rest(d.ops);
    assert rest[..0] == [] && LongRuns([]) == 0;
    assert d.ops[..1 + 0] == d.ops[..1];
    assert out[..0] == [];
    assert Markers(out) == 1;
  }

  /** A lead that stays: nothing printed, nothing pending. */
  lemma LeadWalksPlain(d: Diff, out: seq<ULine>)
    requires Renderable(d) && !LeadCollapses(d.ops) && |out| == 0
    ensures Walking(d, out, 0, 0, out, 0, 0, 0)
  {
    assert d.ops[..0] == [] && Rest(d.ops)[..0] == [];
    assert out[..0] == out;
  }

  /** After the last op: the final run keeps Context lines and a marker for the rest when it is long. */
  method Finish(d: Diff, out: seq<ULine>, xi: int, yi: int, keep: int) returns (out': seq<ULine>)
    requires Renderable(d) && Describes(d, out, xi, yi) && Accounts(d.ops, out, xi, yi, keep)
    ensures Agrees(LeftView(out'), d.lt) && Agrees(RightView(out'), d.rt) && Wide(out')
    ensures Dels(out') == SumDel(d.ops) && Adds(out') == SumAdd(d.ops)
    ensures Ctxs(out') + Hidden(out') == SumKeep(d.ops)
    ensures Markers(out') == Markers(out) + (if keep > Context + 3 then 1 else 0)
    ensures |out'| >= |out| && out'[..|out|] == out
    ensures |out| < |out'| ==> !out'[|out|].Marker?
    ensures |out'| > 0 && out'[|out'| - 1].Marker? <==>
              keep > Context + 3 || (keep == 0 && |out| > 0 && out[|out| - 1].Marker?)
    ensures keep > Context + 3 ==> out'[|out'| - 1] == Marker(keep - Context)
  {
    assert xi + keep == |d.lt| && yi + keep == |d.rt|;
    if keep > Context + 3 {
      out' := FinishLong(d, out, xi, yi, keep);
    } else {
      out' := PrintCtx(d, out, xi, yi, keep);
      if keep == 0 {
        assert out' == out'[..|out|];
      } else {
        assert !out'[|out'| - 1].Marker?;
      }
    }
    FullView(d, out');
  }

  /** A final run of more than Context + 3 lines: Context of them, then a marker. */
  method FinishLong(d: Diff, out: seq<ULine>, xi: int, yi: int, keep: int) returns (out': seq<ULine>)
    requires Describes(d, out, xi, yi) && keep > Context + 3 && xi + keep == |d.lt| && yi + keep == |d.rt|
    ensures Describes(d, out', |d.lt|, |d.rt|)
    ensures Dels(out') == Dels(out) && Adds(out') == Adds(out)
    ensures Ctxs(out') + Hidden(out') == Ctxs(out) + Hidden(out) + keep
    ensures Markers(out') == Markers(out) + 1
    ensures |out'| > |out| && out'[..|out|] == out && !out'[|out|].Marker?
    ensures out'[|out'| - 1] == Marker(keep - Context)
  {
    var x1, y1 := xi + Context, yi + Context;
    var o1 := PrintCtx(d, out, xi, yi, Context);
    out' := PrintMarker(d, o1, x1, y1, keep - Context);
    PrefixTrans(out, o1, out');
    assert out'[|out|] == o1[|out|] by {
      assert out'[..|o1|][|out|] == out'[|out|];
    }
  }

  /** Output that describes both sides in full agrees with them. */
  lemma FullView(d: Diff, out: seq<ULine>)
    requires Describes(d, out, |d.lt|, |d.rt|)
    ensures Agrees(LeftView(out), d.lt) && Agrees(RightView(out), d.rt) && Wide(out)
  {
    assert d.lt[..|d.lt|] == d.lt && d.rt[..|d.rt|] == d.rt;
  }

  /** What holds at the head of the loop of Unified after i ops of the rest. */
  ghost predicate Walking(d: Diff, lead: seq<ULine>, keep0: int, i: int, out: seq<ULine>, xi: int, yi: int, keep: int)
    requires Renderable(d)
  {
    var rest, start := Rest(d.ops), Start(d.ops);
    && 0 <= i <= |rest| && keep0 == (if start == 1 then Context else 0)
    && Describes(d, out, xi, yi) && Accounts(d.ops[..start + i], out, xi, yi, keep)
    && keep == (if i > 0 then rest[i - 1].keep else keep0)
    && Markers(out) == start + LongRuns(rest[..if i > 0 then i - 1 else 0])
    && |out| >= |lead| && out[..|lead|] == lead
    && (|lead| < |out| ==> !out[|lead|].Marker?)
    && (|out| > 0 && out[|out| - 1].Marker? ==> i == 0 && start == 1 && keep0 == Context)
  }

  /** One turn of the loop of Unified. */
  method Turn(d: Diff, lead: seq<ULine>, keep0: int, i: int, out: seq<ULine>, xi: int, yi: int, keep: int)
    returns (out': seq<ULine>, xi': int, yi': int, keep': int)
    requires Renderable(d) && Walking(d, lead, keep0, i, out, xi, yi, keep) && i < |Rest(d.ops)|
    ensures Walking(d, lead, keep0, i + 1, out', xi', yi', keep')
  {
    var rest, start := Rest(d.ops), Start(d.ops);
    var j := start + i;
    out', xi', yi', keep' := Step(d, j, out, xi, yi, keep);
    assert d.ops[..start + (i + 1)] == d.ops[..j + 1];
    assert rest[i] == d.ops[j];
    PrefixTrans(lead, out, out');
    if |lead| < |out| {
      assert out'[|lead|] == out[|lead|] by {
        assert out'[..|out|][|lead|] == out'[|lead|];
      }
    }
    if i > 0 {
      LongRunsSnoc(rest, i - 1);
      assert rest[..(i - 1) + 1] == rest[..i];
    }
  }

  /** The loop of Unified over the ops after the lead. */
  method Walk(d: Diff, lead: seq<ULine>, xi0: int, yi0: int, keep0: int) returns (out: seq<ULine>, xi: int, yi: int, keep: int)
    requires Renderable(d) && Walking(d, lead, keep0, 0, lead, xi0, yi0, keep0)
    ensures Describes(d, out, xi, yi) && Accounts(d.ops, out, xi, yi, keep)
    ensures keep == FinalKeep(d.ops)
    ensures Markers(out) == Collapsed(d.ops) - (if FinalKeep(d.ops) > Context + 3 then 1 else 0)
    ensures |out| >= |lead| && out[..|lead|] == lead
    ensures |lead| < |out| ==> !out[|lead|].Marker?
    ensures |out| > 0 && out[|out| - 1].Marker? ==> keep == Context
  {
    out, xi, yi, keep := lead, xi0, yi0, keep0;
    var i := 0;
    while i < |Rest(d.ops)|
      invariant Walking(d, lead, keep0, i, out, xi, yi, keep)
      decreases |Rest(d.ops)| - i
    {
      out, xi, yi, keep := Turn(d, lead, keep0, i, out, xi, yi, keep);
      i := i + 1;
    }
    Walked(d, lead, keep0, out, xi, yi, keep);
  }

  lemma Walked(d: Diff, lead: seq<ULine>, keep0: int, out: seq<ULine>, xi: int, yi: int, keep: int)
    requires Renderable(d) && Walking(d, lead, keep0, |Rest(d.ops)|, out, xi, yi, keep)
    ensures Describes(d, out, xi, yi) && Accounts(d.ops, out, xi, yi, keep)
    ensures keep == FinalKeep(d.ops)
    ensures Markers(out) == Collapsed(d.ops) - (if FinalKeep(d.ops) > Context + 3 then 1 else 0)
    ensures |out| > 0 && out[|out| - 1].Marker? ==> keep == Context
  {
    assert d.ops[..Start(d.ops) + |Rest(d.ops)|] == d.ops;
  }

  /**
   * The unified rendering of a diff: every printed line stands for the
   * line of its side at its position, the counts of deleted, added and
   * common lines are those of the ops, a marker replaces the middle of
   * every long common run, and markers open and close the output exactly
   * when the first and the last run collapse.
   */
  method Unified(d: Diff) returns (out: seq<ULine>, text: string)
    requires Renderable(d)
    ensures Agrees(LeftView(out), d.lt) && Agrees(RightView(out), d.rt)
    ensures Dels(out) == SumDel(d.ops) && Adds(out) == SumAdd(d.ops)
    ensures Ctxs(out) + Hidden(out) == SumKeep(d.ops)
    ensures forall k :: 0 <= k < |out| && out[k].Marker? ==> out[k].n > Context
    ensures Markers(out) == Collapsed(d.ops)
    ensures |out| > 0 && out[0].Marker? <==> LeadCollapses(d.ops)
    ensures LeadCollapses(d.ops) ==> out[0] == Marker(d.ops[0].keep - Context)
    ensures |out| > 0 && out[|out| - 1].Marker? <==> FinalKeep(d.ops) > Context + 3
    ensures FinalKeep(d.ops) > Context + 3 ==> out[|out| - 1] == Marker(FinalKeep(d.ops) - Context)
    ensures |out| == 0 <==> |d.lt| == 0 && |d.rt| == 0
    ensures text == Render(out)
  {
    var lead, xi, yi, keep := Lead(d);
    out, xi, yi, keep := Walk(d, lead, xi, yi, keep);
    ghost var before := out;
    out := Finish(d, out, xi, yi, keep);
    PrefixTrans(lead, before, out);
    if |lead| < |before| {
      assert out[|lead|] == before[|lead|] by {
        assert out[..|before|][|lead|] == out[|lead|];
      }
    }
    ViewsCover(out);
    text := Render(out);
  }

  /** Every line stands for at least one line of one side. */
  lemma {:induction false} ViewsCover(out: seq<ULine>)
    requires Wide(out)
    ensures |LeftView(out)| + |RightView(out)| >= |out|
    decreases |out|
  {
    if |out| > 0 {
      var p := out[..|out| - 1];
      assert Wide(p) by {
        forall k | 0 <= k < |p| && p[k].Marker?
          ensures p[k].n > Context
        {
          assert p[k] == out[k];
        }
      }
      ViewsCover(p);
      assert out[|out| - 1].Marker? ==> out[|out| - 1].n > Context;
    }
  }

  /** Each printed line ends in a newline, so only the empty output prints as "". */
  lemma {:induction false} RenderEmpty(out: seq<ULine>)
    ensures Render(out) == "" <==> |out| == 0
  {
    if |out| > 0 {
      var l := out[|out| - 1];
      assert |LineText(l)| > 0;
    }
  }

  // ---------------------------------------------------------------------
  // UnifiedFormatter.Add.

  /** The formatter's text for one rendering: every line indented by a tab, nothing for no lines. */
  function Indent(s: string): (r: string)
    ensures r == "" <==> s == ""
    ensures r != "" ==> r[0] == '\t'
  {
    if s == "" then "" else "\t" + Text.ReplaceChar(s, '\n', "\n\t")
  }

  /** Drop the tab after every newline. */
  function Untab(t: string): string
    decreases |t|
  {
    if |t| == 0 then ""
    else if |t| >= 2 && t[0] == '\n' && t[1] == '\t' then "\n" + Untab(t[2..])
    else [t[0]] + Untab(t[1..])
  }

  /** The inverse of Indent: drop the leading tab and the tab after every newline. */
  function Unindent(r: string): string {
    if r == "" then "" else Untab(r[1..])
  }

  lemma {:induction false} UntabReplace(s: string)
    ensures Untab(Text.ReplaceChar(s, '\n', "\n\t")) == s
    decreases |s|
  {
    if |s| > 0 {
      var r := Text.ReplaceChar(s[1..], '\n', "\n\t");
      UntabReplace(s[1..]);
      if s[0] == '\n' {
        assert ("\n\t" + r)[2..] == r;
      } else {
        assert ([s[0]] + r)[1..] == r;
      }
    }
  }

  /** Indenting loses nothing. */
  lemma IndentRoundTrip(s: string)
    ensures Unindent(Indent(s)) == s
  {
    if s != "" {
      UntabReplace(s);
      assert Indent(s)[1..] == Text.ReplaceChar(s, '\n', "\n\t");
    }
  }

  /**
   * UnifiedFormatter.Add: append the diff's indented rendering under its
   * name, empty exactly when both sides are empty, and leave the earlier
   * entries alone.
   */
  method FormatterAdd(kvs: seq<KeyValue.KV>, name: string, d: Diff) returns (kvs': seq<KeyValue.KV>, ghost out: seq<ULine>)
    requires Renderable(d)
    ensures |kvs'| == |kvs| + 1 && kvs'[..|kvs|] == kvs && kvs'[|kvs|].k == name
    ensures kvs'[|kvs|].v == "" <==> |d.lt| == 0 && |d.rt| == 0
    ensures Unindent(kvs'[|kvs|].v) == Render(out)
    ensures Agrees(LeftView(out), d.lt) && Agrees(RightView(out), d.rt)
  {
    var text;
    out, text := Unified(d);
    RenderEmpty(out);
    IndentRoundTrip(text);
    kvs' := kvs + [KeyValue.KV(name, Indent(text))];
  }
}
