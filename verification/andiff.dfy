/**
 * The anchored line diff of internal/andiff/andiff.go: line splitting, the
 * optional per-line filter, the edit script `Compute` emits, and the
 * fingerprint it takes of the changed lines.
 */
module AnDiff {
  import opened Wrappers
  import Text
  import Anchors
  import Fnv

  /** Delete Del lines of the left side, add Add lines of the right, then keep Keep common lines. */
  datatype Op = Op(del: int, add: int, keep: int)

  /** The split sides, the edit script between them and the fingerprint of the change. */
  datatype Diff = Diff(lt: seq<string>, rt: seq<string>, ops: seq<Op>, hash: bv64)

  predicate NoNewline(ls: seq<string>) {
    forall i :: 0 <= i < |ls| ==> '\n' !in ls[i]
  }

  predicate EndsInNewline(s: string) {
    |s| > 0 && s[|s| - 1] == '\n'
  }

  // ---------------------------------------------------------------------
  // Lines.

  /** Splitting s + "\n" gives the pieces of s and one empty piece. */
  lemma SplitTrailing(s: string)
    ensures Text.Split(s + "\n", '\n') == Text.Split(s, '\n') + [""]
  {
    var ss := Text.Split(s, '\n');
    Text.JoinSplit(s, '\n');
    Text.JoinSnoc(ss, "", '\n');
    assert Text.Join(ss + [""], '\n') == s + "\n";
    assert forall i :: 0 <= i < |ss + [""]| ==> '\n' !in (ss + [""])[i];
    Text.SplitJoin(ss + [""], '\n');
  }

  /**
   * andiff.split: the lines of s. A final newline ends the last line rather
   * than starting an empty one, but the result is never empty.
   */
  function SplitLines(s: string): (r: seq<string>)
    ensures |r| >= 1 && NoNewline(r)
    ensures EndsInNewline(s) ==> Text.Join(r, '\n') + "\n" == s
    ensures !EndsInNewline(s) ==> Text.Join(r, '\n') == s
  {
    var ss := Text.Split(s, '\n');
    if |ss| >= 2 && ss[|ss| - 1] == "" then
      var r := ss[..|ss| - 1];
      Text.JoinSplit(s, '\n');
      assert ss == r + [""];
      Text.JoinSnoc(r, "", '\n');
      r
    else
      Text.JoinSplit(s, '\n');
      assert EndsInNewline(s) ==> false by {
        if EndsInNewline(s) {
          var t := s[..|s| - 1];
          assert s == t + "\n";
          SplitTrailing(t);
        }
      }
      ss
  }

  /** Lines joined with newlines and ended by one split back into themselves. */
  lemma SplitLinesJoin(ls: seq<string>)
    requires |ls| >= 1 && NoNewline(ls)
    ensures SplitLines(Text.Join(ls, '\n') + "\n") == ls
  {
    Text.SplitJoin(ls, '\n');
    SplitTrailing(Text.Join(ls, '\n'));
  }

  /**
   * The regexp filter: for each line, the positions its matches cover.
   * ReplaceAllString(s, "") keeps exactly the uncovered characters.
   */
  type Matcher = string -> seq<bool>

  /** The characters of s whose mask entry is not set. */
  function Strip(s: string, mask: seq<bool>): (r: string)
    ensures |r| <= |s|
    ensures forall c :: c in r ==> c in s
    decreases |s|
  {
    if |s| == 0 then ""
    else
      var rest := Strip(s[1..], if |mask| > 0 then mask[1..] else []);
      if |mask| > 0 && mask[0] then rest else [s[0]] + rest
  }

  /** The lines the diff compares: each line with its matches removed. */
  function Filter(ls: seq<string>, rm: Option<Matcher>): (r: seq<string>)
    ensures |r| == |ls|
    ensures rm.None? ==> r == ls
    ensures NoNewline(ls) ==> NoNewline(r)
  {
    match rm
    case None => ls
    case Some(m) => seq(|ls|, i requires 0 <= i < |ls| => Strip(ls[i], m(ls[i])))
  }

  // ---------------------------------------------------------------------
  // Edit scripts.

  /**
   * ops turns x[..xi] into y[..yi]: read from the back, the last op deletes
   * Del lines of x, adds Add lines of y and ends with Keep lines equal on
   * both sides, and the ops before it do the same for what remains.
   */
  predicate Covers(x: seq<string>, y: seq<string>, ops: seq<Op>, xi: int, yi: int)
    decreases |ops|
  {
    if |ops| == 0 then xi == 0 && yi == 0
    else
      var o := ops[|ops| - 1];
      && 0 <= o.del && 0 <= o.add && 0 <= o.keep
      && o.del + o.keep <= xi <= |x| && o.add + o.keep <= yi <= |y|
      && x[xi - o.keep..xi] == y[yi - o.keep..yi]
      && Covers(x, y, ops[..|ops| - 1], xi - o.del - o.keep, yi - o.add - o.keep)
  }

  /** ops is an edit script from x to y. */
  predicate Script(x: seq<string>, y: seq<string>, ops: seq<Op>) {
    Covers(x, y, ops, |x|, |y|)
  }

  /** Lines of the left side an op list accounts for. */
  function SumLeft(ops: seq<Op>): int
    decreases |ops|
  {
    if |ops| == 0 then 0 else SumLeft(ops[..|ops| - 1]) + ops[|ops| - 1].del + ops[|ops| - 1].keep
  }

  /** Lines of the right side an op list accounts for. */
  function SumRight(ops: seq<Op>): int
    decreases |ops|
  {
    if |ops| == 0 then 0 else SumRight(ops[..|ops| - 1]) + ops[|ops| - 1].add + ops[|ops| - 1].keep
  }

  /** Accounting: Del+Keep sums to the left length and Add+Keep to the right. */
  lemma {:induction false} CoversCounts(x: seq<string>, y: seq<string>, ops: seq<Op>, xi: int, yi: int)
    requires Covers(x, y, ops, xi, yi)
    ensures SumLeft(ops) == xi && SumRight(ops) == yi
    decreases |ops|
  {
    if |ops| > 0 {
      var o := ops[|ops| - 1];
      CoversCounts(x, y, ops[..|ops| - 1], xi - o.del - o.keep, yi - o.add - o.keep);
    }
  }

  lemma ScriptCounts(x: seq<string>, y: seq<string>, ops: seq<Op>)
    requires Script(x, y, ops)
    ensures SumLeft(ops) == |x| && SumRight(ops) == |y|
  {
    CoversCounts(x, y, ops, |x|, |y|);
  }

  /** A script that neither deletes nor adds anything relates equal prefixes. */
  lemma {:induction false} CoversNoEdits(x: seq<string>, y: seq<string>, ops: seq<Op>, xi: int, yi: int)
    requires Covers(x, y, ops, xi, yi)
    requires forall k :: 0 <= k < |ops| ==> ops[k].del == 0 && ops[k].add == 0
    ensures xi == yi && x[..xi] == y[..yi]
    decreases |ops|
  {
    if |ops| > 0 {
      var o := ops[|ops| - 1];
      CoversNoEdits(x, y, ops[..|ops| - 1], xi - o.keep, yi - o.keep);
      assert x[..xi] == x[..xi - o.keep] + x[xi - o.keep..xi];
      assert y[..yi] == y[..yi - o.keep] + y[yi - o.keep..yi];
    }
  }

  /** A script without deletions and additions relates equal sides. */
  lemma ScriptNoEdits(x: seq<string>, y: seq<string>, ops: seq<Op>)
    requires Script(x, y, ops)
    requires forall k :: 0 <= k < |ops| ==> ops[k].del == 0 && ops[k].add == 0
    ensures x == y
  {
    CoversNoEdits(x, y, ops, |x|, |y|);
    assert x == x[..|x|] && y == y[..|y|];
  }

  /** The one-op script of equal sides. */
  lemma ScriptSame(x: seq<string>)
    ensures Script(x, x, [Op(0, 0, |x|)])
  {
    assert [Op(0, 0, |x|)][..0] == [];
  }

  /** The script ops extended by o, which starts where ops ends. */
  lemma CoversSnoc(x: seq<string>, y: seq<string>, ops: seq<Op>, o: Op, xi: int, yi: int, xe: int, ye: int)
    requires 0 <= o.del && 0 <= o.add && 0 <= o.keep
    requires xe == xi + o.del + o.keep && ye == yi + o.add + o.keep && xe <= |x| && ye <= |y|
    requires Covers(x, y, ops, xi, yi)
    requires x[xe - o.keep..xe] == y[ye - o.keep..ye]
    ensures Covers(x, y, ops + [o], xe, ye)
  {
    assert (ops + [o])[..|ops|] == ops;
    assert xe - o.del - o.keep == xi && ye - o.add - o.keep == yi;
  }

  /** The Keep of the last op, 0 for no ops: the slide budget. */
  function LastKeep(ops: seq<Op>): int {
    if |ops| == 0 then 0 else ops[|ops| - 1].keep
  }

  /** Covered prefixes end in LastKeep equal lines. */
  lemma CoversTail(x: seq<string>, y: seq<string>, ops: seq<Op>, xi: int, yi: int)
    requires Covers(x, y, ops, xi, yi)
    ensures 0 <= xi <= |x| && 0 <= yi <= |y|
    ensures 0 <= LastKeep(ops) <= xi && LastKeep(ops) <= yi
    ensures x[xi - LastKeep(ops)..xi] == y[yi - LastKeep(ops)..yi]
  {
  }

  /** ops with s lines taken off the Keep of its last op; no ops stay no ops. */
  function ShrinkLast(ops: seq<Op>, s: int): (r: seq<Op>)
    ensures |r| == |ops| && LastKeep(r) == LastKeep(ops) - (if |ops| == 0 then 0 else s)
    ensures |ops| > 0 ==> r[..|r| - 1] == ops[..|ops| - 1]
    ensures |ops| > 0 ==> r[|r| - 1].del == ops[|ops| - 1].del && r[|r| - 1].add == ops[|ops| - 1].add
  {
    if |ops| == 0 then ops
    else
      var o := ops[|ops| - 1];
      ops[..|ops| - 1] + [Op(o.del, o.add, o.keep - s)]
  }

  /** Taking nothing off changes nothing. */
  lemma ShrinkNothing(ops: seq<Op>)
    ensures ShrinkLast(ops, 0) == ops
  {
    if |ops| > 0 {
      assert ops == ops[..|ops| - 1] + [ops[|ops| - 1]];
    }
  }

  /** Giving back s lines of the last Keep leaves a script of the shorter prefixes. */
  lemma CoversShrink(x: seq<string>, y: seq<string>, ops: seq<Op>, xi: int, yi: int, s: nat,
                     r: seq<Op>, xi': int, yi': int)
    requires Covers(x, y, ops, xi, yi)
    requires |ops| > 0 && s <= LastKeep(ops)
    requires r == ShrinkLast(ops, s) && xi' == xi - s && yi' == yi - s
    ensures Covers(x, y, r, xi', yi')
  {
    var o := ops[|ops| - 1];
    var k := o.keep;
    var a, b := x[xi - k..xi], y[yi - k..yi];
    assert a == b;
    assert a[..k - s] == x[xi - k..xi'];
    assert b[..k - s] == y[yi - k..yi'];
    assert r[..|r| - 1] == ops[..|ops| - 1];
    assert r[|r| - 1] == Op(o.del, o.add, k - s);
    assert xi' - (k - s) == xi - k && yi' - (k - s) == yi - k;
  }

  // ---------------------------------------------------------------------
  // The fingerprint stream.

  /** Each line of ls, preceded by tag. */
  function Tagged(tag: string, ls: seq<string>): string
    decreases |ls|
  {
    if |ls| == 0 then "" else Tagged(tag, ls[..|ls| - 1]) + tag + ls[|ls| - 1]
  }

  /** Tagging is compatible with appending one line. */
  lemma TaggedSnoc(tag: string, ls: seq<string>, l: string)
    ensures Tagged(tag, ls + [l]) == Tagged(tag, ls) + tag + l
  {
    assert (ls + [l])[..|ls|] == ls;
  }

  /**
   * What the diff writes to its hash for the script ops of x[..xi] and
   * y[..yi]: for every marked op its deleted lines as "\n-" records, then
   * its added lines as "\n+" records. Kept lines never enter it.
   */
  function Records(x: seq<string>, y: seq<string>, ops: seq<Op>, marks: seq<bool>, xi: int, yi: int): string
    requires |marks| == |ops|
    decreases |ops|
  {
    if |ops| == 0 then ""
    else
      var o := ops[|ops| - 1];
      var px, py := xi - o.del - o.keep, yi - o.add - o.keep;
      var r := Records(x, y, ops[..|ops| - 1], marks[..|marks| - 1], px, py);
      if marks[|marks| - 1] then r + Tagged("\n-", Part(x, px, o.del)) + Tagged("\n+", Part(y, py, o.add)) else r
  }

  /** The n lines of ls from lo on; none when they are not all there. */
  function Part(ls: seq<string>, lo: int, n: int): (r: seq<string>)
    ensures 0 <= lo && 0 <= n && lo + n <= |ls| ==> r == ls[lo..lo + n]
  {
    if 0 <= lo && 0 <= n && lo + n <= |ls| then ls[lo..lo + n] else []
  }

  /** Giving back Keep lines does not change the records. */
  lemma RecordsShrink(x: seq<string>, y: seq<string>, ops: seq<Op>, marks: seq<bool>, xi: int, yi: int, s: nat,
                      r: seq<Op>, xi': int, yi': int)
    requires |marks| == |ops| && |ops| > 0
    requires r == ShrinkLast(ops, s) && xi' == xi - s && yi' == yi - s
    ensures Records(x, y, r, marks, xi', yi') == Records(x, y, ops, marks, xi, yi)
  {
    var o := ops[|ops| - 1];
    assert r[..|r| - 1] == ops[..|ops| - 1];
    assert r[|r| - 1] == Op(o.del, o.add, o.keep - s);
    assert xi' - o.del - (o.keep - s) == xi - o.del - o.keep;
    assert yi' - o.add - (o.keep - s) == yi - o.add - o.keep;
  }

  // ---------------------------------------------------------------------
  // The pieces of the walk.

  /**
   * The length of the longest common run of x from i and y from j that
   * stays above nx on the left and above ny on the right.
   */
  method RunWithin(x: seq<string>, y: seq<string>, i: nat, j: nat, nx: nat, ny: nat) returns (k: nat)
    requires i <= nx <= |x| && j <= ny <= |y|
    ensures i + k <= nx && j + k <= ny
    ensures x[i..i + k] == y[j..j + k]
    ensures i + k < nx && j + k < ny ==> x[i + k] != y[j + k]
  {
    k := 0;
    while i + k < nx && j + k < ny && x[i + k] == y[j + k]
      invariant i + k <= nx && j + k <= ny
      invariant x[i..i + k] == y[j..j + k]
    {
      assert x[i..i + k + 1] == x[i..i + k] + [x[i + k]];
      assert y[j..j + k + 1] == y[j..j + k] + [y[j + k]];
      k := k + 1;
    }
  }

  /**
   * From an anchor at (mx, my), back up over equal lines but not past
   * (xi, yi): the highest matching line above the anchor.
   */
  method WalkBack(x: seq<string>, y: seq<string>, xi: nat, yi: nat, mx: nat, my: nat)
      returns (nxi: nat, nyi: nat)
    requires xi <= mx <= |x| && yi <= my <= |y|
    ensures xi <= nxi <= mx && yi <= nyi <= my && mx - nxi == my - nyi
    ensures x[nxi..mx] == y[nyi..my]
    ensures nxi == xi || nyi == yi || x[nxi - 1] != y[nyi - 1]
  {
    nxi, nyi := mx, my;
    while nxi > xi && nyi > yi && x[nxi - 1] == y[nyi - 1]
      invariant xi <= nxi <= mx && yi <= nyi <= my && mx - nxi == my - nyi
      invariant x[nxi..mx] == y[nyi..my]
    {
      assert x[nxi - 1..mx] == [x[nxi - 1]] + x[nxi..mx];
      assert y[nyi - 1..my] == [y[nyi - 1]] + y[nyi..my];
      nxi, nyi := nxi - 1, nyi - 1;
    }
  }

  /** The line u lines above position p of z. */
  function Above(z: seq<string>, p: nat, u: nat): string
    requires u <= p && p - u < |z|
  {
    z[p - u]
  }

  /**
   * The indentation the slide scan weighs for a slide by t. The scan is
   * stated for any weight; Compute uses countIndent.
   */
  function IndentAt(z: seq<string>, p: nat, t: nat, indent: string -> nat): nat
    requires t <= p && p - t < |z|
  {
    indent(Above(z, p, t))
  }

  /**
   * z[i..n] can move up by t lines: each of the t lines above the block
   * equals the line it would bring in at the bottom.
   */
  predicate Slidable(z: seq<string>, i: nat, n: nat, t: nat)
    requires i <= n <= |z|
  {
    t <= i && forall u :: 1 <= u <= t ==> Above(z, n, u) == Above(z, i, u)
  }

  /** No slide below maxslide reaches a line less indented than the slide by t. */
  predicate Lowest(z: seq<string>, i: nat, n: nat, maxslide: int, t: nat, indent: string -> nat)
    requires i <= n <= |z| && i < |z| && t <= i
  {
    forall u :: 1 <= u < maxslide && Slidable(z, i, n, u) ==> IndentAt(z, i, u, indent) >= IndentAt(z, i, t, indent)
  }

  /** Every slide shorter than t reaches a line more indented than the slide by t. */
  predicate FirstLowest(z: seq<string>, i: nat, t: nat, indent: string -> nat)
    requires t <= i < |z|
  {
    forall u :: 1 <= u < t ==> IndentAt(z, i, u, indent) > IndentAt(z, i, t, indent)
  }

  /**
   * One of the two slide scans of Compute over the side z whose block
   * z[i..n] is the pure change: among the slides below maxslide that keep
   * the text intact, pick the first one whose top line is the least
   * indented, provided it is less indented than z[i] itself. A scan that
   * finds no line less indented than z[i] leaves best alone.
   */
  method SlideScan(z: seq<string>, i: nat, n: nat, maxslide: int, best: nat, indent: string -> nat)
      returns (r: nat)
    requires i <= n <= |z| && i < |z| && maxslide <= i
    ensures || (r == best && Lowest(z, i, n, maxslide, 0, indent))
            || (&& 1 <= r < maxslide && Slidable(z, i, n, r)
                && IndentAt(z, i, r, indent) < IndentAt(z, i, 0, indent)
                && Lowest(z, i, n, maxslide, r, indent) && FirstLowest(z, i, r, indent))
  {
    var bestindent := indent(z[i]);
    r := best;
    ghost var found := false;
    var slide := 1;
    while slide < maxslide && z[n - slide] == z[i - slide]
      invariant 1 <= slide && (slide <= maxslide || slide == 1)
      invariant Slidable(z, i, n, slide - 1)
      invariant !found ==> r == best && bestindent == IndentAt(z, i, 0, indent)
      invariant found ==> 1 <= r < slide && Slidable(z, i, n, r) && bestindent == IndentAt(z, i, r, indent)
      invariant found ==> bestindent < IndentAt(z, i, 0, indent) && FirstLowest(z, i, r, indent)
      invariant forall t :: 1 <= t < slide ==> IndentAt(z, i, t, indent) >= bestindent
    {
      assert Above(z, n, slide) == Above(z, i, slide);
      var w := indent(z[i - slide]);
      assert w == IndentAt(z, i, slide, indent);
      if w < bestindent {
        bestindent, r, found := w, slide, true;
      }
      slide := slide + 1;
    }
    if slide < maxslide {
      assert Above(z, n, slide) != Above(z, i, slide);
    }
    if found {
      LowestAfterScan(z, i, n, maxslide, slide, r, indent);
    } else {
      LowestAfterScan(z, i, n, maxslide, slide, 0, indent);
    }
  }

  /** Where the scan stops, no later slide keeps the text intact. */
  lemma LowestAfterScan(z: seq<string>, i: nat, n: nat, maxslide: int, slide: nat, t: nat, indent: string -> nat)
    requires i <= n <= |z| && i < |z| && maxslide <= i && 1 <= slide && t < slide && t <= i
    requires slide <= maxslide || slide == 1
    requires slide < maxslide ==> Above(z, n, slide) != Above(z, i, slide)
    requires forall u :: 1 <= u < slide ==> IndentAt(z, i, u, indent) >= IndentAt(z, i, t, indent)
    ensures Lowest(z, i, n, maxslide, t, indent)
  {
    forall u | 1 <= u < maxslide && Slidable(z, i, n, u)
      ensures u < slide
    {
    }
  }

  // ---------------------------------------------------------------------
  // Which ops the hash takes in: the anchors decide.

  /** Where the Keep of op k starts on the left side. */
  function KeepX(ops: seq<Op>, k: nat): int
    requires k < |ops|
  {
    SumLeft(ops[..k]) + ops[k].del
  }

  /** Where the Keep of op k starts on the right side. */
  function KeepY(ops: seq<Op>, k: nat): int
    requires k < |ops|
  {
    SumRight(ops[..k]) + ops[k].add
  }

  /** An op that deletes as many lines as it adds, and at least one. */
  predicate Balanced(o: Op) {
    o.del == o.add && o.add > 0
  }

  /** The pair a lies on the common run of n lines from (px, py). */
  predicate OnRun(a: Anchors.Pair, px: int, py: int, n: int) {
    px <= a.x < px + n && a.y - py == a.x - px
  }

  /** The common run op k keeps holds the line pair of one of the anchors ms. */
  ghost predicate Anchored(ms: seq<Anchors.Pair>, ops: seq<Op>, k: nat)
    requires k < |ops|
  {
    exists j :: 0 <= j < |ms| && OnRun(ms[j], KeepX(ops, k), KeepY(ops, k), ops[k].keep)
  }

  /** The anchor a lies on the common run one of the ops keeps. */
  ghost predicate Kept(a: Anchors.Pair, ops: seq<Op>) {
    exists k :: 0 <= k < |ops| && OnRun(a, KeepX(ops, k), KeepY(ops, k), ops[k].keep)
  }

  /** Every anchor but the sentinel lies on the common run of one of the ops. */
  ghost predicate KeepsAnchors(ms: seq<Anchors.Pair>, ops: seq<Op>) {
    forall j :: 0 <= j < |ms| - 1 ==> Kept(ms[j], ops)
  }

  /**
   * Every anchor but the sentinel that lies above xi or above yi is on the
   * common run of one of the ops: the walk keeps the anchors it leaves behind.
   */
  ghost predicate KeepsBehind(ms: seq<Anchors.Pair>, ops: seq<Op>, xi: int, yi: int) {
    forall j :: 0 <= j < |ms| - 1 && (ms[j].x < xi || ms[j].y < yi) ==> Kept(ms[j], ops)
  }

  /** An anchor on the run of op k stays kept by ops that agree up to op k. */
  lemma KeptPrefix(a: Anchors.Pair, ops: seq<Op>, ops': seq<Op>, k: nat)
    requires k < |ops| && k < |ops'| && ops'[..k + 1] == ops[..k + 1]
    requires OnRun(a, KeepX(ops, k), KeepY(ops, k), ops[k].keep)
    ensures Kept(a, ops')
  {
    KeepAgree(ops', ops, k);
    assert OnRun(a, KeepX(ops', k), KeepY(ops', k), ops'[k].keep);
  }

  /**
   * The ops whose lines the hash takes in: all but the balanced ones
   * before the last whose common run holds no anchor.
   */
  ghost function HashMask(ms: seq<Anchors.Pair>, ops: seq<Op>): (r: seq<bool>)
    ensures |r| == |ops|
  {
    seq(|ops|, k requires 0 <= k < |ops| => !(Balanced(ops[k]) && k < |ops| - 1 && !Anchored(ms, ops, k)))
  }

  /** Ops that agree up to and including op k start their Keep at the same place. */
  lemma KeepAgree(a: seq<Op>, b: seq<Op>, k: nat)
    requires k < |a| && k < |b| && a[..k + 1] == b[..k + 1]
    ensures KeepX(a, k) == KeepX(b, k) && KeepY(a, k) == KeepY(b, k) && a[k] == b[k]
  {
    assert a[..k] == a[..k + 1][..k] && b[..k] == b[..k + 1][..k];
    assert a[k] == a[..k + 1][k] && b[k] == b[..k + 1][k];
  }

  /** Marks that differ only on ops without deletions and additions give the same records. */
  lemma {:induction false} RecordsAgree(x: seq<string>, y: seq<string>, ops: seq<Op>, m1: seq<bool>, m2: seq<bool>,
                                        xi: int, yi: int)
    requires |m1| == |ops| == |m2|
    requires forall k :: 0 <= k < |ops| && (ops[k].del != 0 || ops[k].add != 0) ==> m1[k] == m2[k]
    ensures Records(x, y, ops, m1, xi, yi) == Records(x, y, ops, m2, xi, yi)
    decreases |ops|
  {
    if |ops| > 0 {
      var n := |ops| - 1;
      var o := ops[n];
      var px, py := xi - o.del - o.keep, yi - o.add - o.keep;
      forall k | 0 <= k < n && (ops[..n][k].del != 0 || ops[..n][k].add != 0)
        ensures m1[..n][k] == m2[..n][k]
      {
        assert ops[..n][k] == ops[k];
      }
      RecordsAgree(x, y, ops[..n], m1[..n], m2[..n], px, py);
      if m1[n] != m2[n] {
        assert Part(x, px, o.del) == [] && Part(y, py, o.add) == [];
      }
    }
  }

  /** The lines of x from xi through p equal those of y on the same diagonal from yi. */
  ghost predicate EqualThrough(x: seq<string>, y: seq<string>, xi: int, yi: int, p: int) {
    && 0 <= xi <= p < |x| && 0 <= yi && p - xi + yi < |y|
    && forall i :: xi <= i <= p ==> x[i] == y[i - xi + yi]
  }

  /** EqualThrough with p inside the block that ends at (nxi, nyi). */
  ghost predicate EqualWithin(x: seq<string>, y: seq<string>, xi: int, yi: int, nxi: int, nyi: int, p: int) {
    p < nxi && p - xi + yi < nyi && EqualThrough(x, y, xi, yi, p)
  }

  /** EqualThrough holds for every p' from xi up to p. */
  lemma EqualShorter(x: seq<string>, y: seq<string>, xi: int, yi: int, p: int, q: int)
    requires EqualThrough(x, y, xi, yi, q) && xi <= p <= q
    ensures EqualThrough(x, y, xi, yi, p)
  {
  }

  /**
   * The anchor a is behind the walk at (xi, yi): it lies above xi or above
   * yi, or on the diagonal of (xi, yi) with only equal lines between; the
   * last case is left by a slide that moves back past an anchor.
   */
  ghost predicate Behind(x: seq<string>, y: seq<string>, a: Anchors.Pair, xi: int, yi: int) {
    a.x < xi || a.y < yi || (a.x - xi == a.y - yi && EqualThrough(x, y, xi, yi, a.x))
  }

  /** The first n anchors are behind the walk at (xi, yi). */
  ghost predicate Passed(x: seq<string>, y: seq<string>, ms: seq<Anchors.Pair>, n: nat, xi: int, yi: int)
    requires n <= |ms|
  {
    forall j :: 0 <= j < n ==> Behind(x, y, ms[j], xi, yi)
  }

  /**
   * Each balanced op but the last is hashed exactly when the anchors ms
   * reach its common run.
   */
  ghost predicate HashedBy(ms: seq<Anchors.Pair>, ops: seq<Op>, marks: seq<bool>)
    requires |marks| == |ops|
  {
    forall k :: 0 <= k < |ops| - 1 && Balanced(ops[k]) ==> (marks[k] <==> Anchored(ms, ops, k))
  }

  /**
   * What the walk at (xi, yi) keeps about the hash: HashedBy, and a
   * balanced last op is hashed, is reached by an anchor unless the walk is
   * done, and ends its run where the two sides differ.
   */
  ghost predicate Skips(x: seq<string>, y: seq<string>, ms: seq<Anchors.Pair>, ops: seq<Op>, marks: seq<bool>,
                        xi: int, yi: int)
    requires |marks| == |ops|
  {
    HashedBy(ms, ops, marks) && LastSkips(x, y, ms, ops, marks, xi, yi)
  }

  /** The part of Skips about the last op. */
  ghost predicate LastSkips(x: seq<string>, y: seq<string>, ms: seq<Anchors.Pair>, ops: seq<Op>, marks: seq<bool>,
                            xi: int, yi: int)
    requires |marks| == |ops|
  {
    |ops| > 0 && Balanced(ops[|ops| - 1]) ==>
      && marks[|ops| - 1]
      && (Anchored(ms, ops, |ops| - 1) || (xi == |x| && yi == |y|))
      && (xi == |x| || yi == |y| || (0 <= xi < |x| && 0 <= yi < |y| && x[xi] != y[yi]))
  }

  /**
   * Op k is a sub-split run of the block x[xi..nxi] / y[yi..nyi]: unhashed,
   * as many lines deleted as added, its common run inside the block on the
   * block's diagonal and, when it deletes, past every run of equal lines
   * the block starts with.
   */
  ghost predicate RunAt(x: seq<string>, y: seq<string>, ops: seq<Op>, marks: seq<bool>, k: nat,
                        xi: int, yi: int, nxi: int, nyi: int)
    requires k < |ops| == |marks|
  {
    && !marks[k] && ops[k].del == ops[k].add && ops[k].keep > 0
    && xi <= KeepX(ops, k) && KeepX(ops, k) + ops[k].keep <= nxi
    && KeepY(ops, k) - yi == KeepX(ops, k) - xi && KeepY(ops, k) + ops[k].keep <= nyi
    && (ops[k].del > 0 ==> !EqualWithin(x, y, xi, yi, nxi, nyi, KeepX(ops, k)))
  }

  /** Line t of x lies on the common run of one of the ops from the n-th on. */
  ghost predicate KeptFrom(ops: seq<Op>, n: int, t: int) {
    exists k :: 0 <= n <= k < |ops| && KeepX(ops, k) <= t < KeepX(ops, k) + ops[k].keep
  }

  /**
   * Every pair of equal lines on the diagonal of (xi, yi) inside the block
   * x[xi..nxi] / y[yi..nyi], above line upto of x, lies on the common run of
   * one of the ops from the n-th on: the sub-split misses none.
   */
  ghost predicate SplitCovers(x: seq<string>, y: seq<string>, n: int, ops: seq<Op>,
                              xi: int, yi: int, nxi: int, nyi: int, upto: int) {
    forall t :: && xi <= t < upto && t < nxi && t - xi + yi < nyi && 0 <= t < |x| && 0 <= t - xi + yi < |y|
                && x[t] == y[t - xi + yi]
                ==> KeptFrom(ops, n, t)
  }

  /** Every op after the first |ops0| is a sub-split run of the block. */
  ghost predicate SplitRuns(x: seq<string>, y: seq<string>, ops0: seq<Op>, ops: seq<Op>, marks: seq<bool>,
                            xi: int, yi: int, nxi: int, nyi: int)
    requires |ops| == |marks|
  {
    forall k :: |ops0| <= k < |ops| ==> RunAt(x, y, ops, marks, k, xi, yi, nxi, nyi)
  }

  /** A line unique in z occurs at one position only. */
  lemma Unique(s: string, z: seq<string>, i: nat, j: nat)
    requires i < |z| && j < |z| && z[i] == s && z[j] == s && Anchors.Count(s, z) == 1
    ensures i == j
  {
    if i < j {
      Anchors.CountTwo(s, z, i, j);
    } else if j < i {
      Anchors.CountTwo(s, z, j, i);
    }
  }

  /** An anchor's left line equals no right line but its partner. */
  lemma PairedX(x: seq<string>, y: seq<string>, ms: seq<Anchors.Pair>, j: nat, q: nat)
    requires Anchors.ValidAnchors(x, y, ms) && j < |ms| - 1 && q < |y| && x[ms[j].x] == y[q]
    ensures q == ms[j].y
  {
    Unique(x[ms[j].x], y, q, ms[j].y);
  }

  /** An anchor's right line equals no left line but its partner. */
  lemma PairedY(x: seq<string>, y: seq<string>, ms: seq<Anchors.Pair>, j: nat, p: nat)
    requires Anchors.ValidAnchors(x, y, ms) && j < |ms| - 1 && p < |x| && x[p] == y[ms[j].y]
    ensures p == ms[j].x
  {
    Unique(x[ms[j].x], x, p, ms[j].x);
  }

  /** A slide of x[xi..nxi] by t passes over no anchor line: those lines occur twice in x. */
  lemma SlidX(x: seq<string>, y: seq<string>, ms: seq<Anchors.Pair>, j: nat, xi: nat, nxi: nat, t: nat)
    requires Anchors.ValidAnchors(x, y, ms) && j < |ms| - 1
    requires xi < nxi <= |x| && Slidable(x, xi, nxi, t)
    ensures !(xi - t <= ms[j].x < xi)
  {
    var a := ms[j];
    if xi - t <= a.x < xi {
      var u := xi - a.x;
      assert Above(x, nxi, u) == Above(x, xi, u);
      Unique(x[a.x], x, nxi - u, a.x);
    }
  }

  /** A slide of y[yi..nyi] by t passes over no anchor line: those lines occur twice in y. */
  lemma SlidY(x: seq<string>, y: seq<string>, ms: seq<Anchors.Pair>, j: nat, yi: nat, nyi: nat, t: nat)
    requires Anchors.ValidAnchors(x, y, ms) && j < |ms| - 1
    requires yi < nyi <= |y| && Slidable(y, yi, nyi, t)
    ensures !(yi - t <= ms[j].y < yi)
  {
    var a := ms[j];
    if yi - t <= a.y < yi {
      var u := yi - a.y;
      assert Above(y, nyi, u) == Above(y, yi, u);
      Unique(y[a.y], y, nyi - u, a.y);
    }
  }

  /**
   * Which ops the walk leaves out of the hash: only the common top and the
   * sub-split runs, each of which deletes as many lines as it adds and
   * keeps some. Every op that changes the line count of one side more than
   * the other, or keeps nothing, is hashed.
   */
  ghost predicate HashMarks(ops: seq<Op>, marks: seq<bool>) {
    |marks| == |ops| && forall k :: 0 <= k < |ops| && !marks[k] ==> ops[k].del == ops[k].add && ops[k].keep > 0
  }

  /** Shortening the last Keep, but not to nothing, keeps the marks right. */
  lemma HashMarksShrink(ops: seq<Op>, marks: seq<bool>, s: int)
    requires HashMarks(ops, marks) && (s == 0 || s < LastKeep(ops))
    ensures HashMarks(ShrinkLast(ops, s), marks)
  {
    var r := ShrinkLast(ops, s);
    forall k | 0 <= k < |r| && !marks[k]
      ensures r[k].del == r[k].add && r[k].keep > 0
    {
      if k < |r| - 1 {
        assert r[k] == r[..|r| - 1][k] == ops[..|ops| - 1][k];
      }
    }
  }

  /** The ops a sub-split has emitted after the first n: equal runs, never hashed. */
  ghost predicate SplitOps(ops: seq<Op>, marks: seq<bool>, n: nat)
    requires |marks| == |ops|
  {
    forall k :: n <= k < |ops| ==> ops[k].del == ops[k].add && ops[k].keep > 0 && !marks[k]
  }

  /** What the sub-split keeps while it scans. */
  ghost predicate SplitState(x: seq<string>, y: seq<string>, ops0: seq<Op>, marks0: seq<bool>, xi0: int, yi0: int,
                             ops: seq<Op>, marks: seq<bool>, xi: int, yi: int)
    requires Covers(x, y, ops0, xi0, yi0) && |marks0| == |ops0|
  {
    && Covers(x, y, ops, xi, yi) && |marks| == |ops|
    && Records(x, y, ops, marks, xi, yi) == Records(x, y, ops0, marks0, xi0, yi0)
    && |ops| >= |ops0| && ops[..|ops0|] == ops0 && marks[..|marks0|] == marks0 && SplitOps(ops, marks, |ops0|)
  }

  /** Before the scan the sub-split has emitted nothing. */
  lemma SplitStart(x: seq<string>, y: seq<string>, ops: seq<Op>, marks: seq<bool>, xi: int, yi: int)
    requires Covers(x, y, ops, xi, yi) && |marks| == |ops|
    ensures SplitState(x, y, ops, marks, xi, yi, ops, marks, xi, yi)
  {
    assert ops[..|ops|] == ops && marks[..|marks|] == marks;
  }

  /** A sub-split keeps the marks right. */
  lemma SplitMarks(x: seq<string>, y: seq<string>, ops0: seq<Op>, marks0: seq<bool>, xi0: int, yi0: int,
                   ops: seq<Op>, marks: seq<bool>, xi: int, yi: int)
    requires Covers(x, y, ops0, xi0, yi0) && |marks0| == |ops0|
    requires SplitState(x, y, ops0, marks0, xi0, yi0, ops, marks, xi, yi) && HashMarks(ops0, marks0)
    ensures HashMarks(ops, marks)
  {
    forall k | 0 <= k < |ops| && !marks[k]
      ensures ops[k].del == ops[k].add && ops[k].keep > 0
    {
      if k < |ops0| {
        assert ops[k] == ops[..|ops0|][k] && marks[k] == marks[..|marks0|][k];
      }
    }
  }

  /** Emitting one equal run keeps the sub-split's state. */
  lemma SplitStep(x: seq<string>, y: seq<string>, ops0: seq<Op>, marks0: seq<bool>, xi0: int, yi0: int,
                  ops: seq<Op>, marks: seq<bool>, xi: nat, yi: nat, txi: nat, tyi: nat, same: nat)
    requires Covers(x, y, ops0, xi0, yi0) && |marks0| == |ops0|
    requires SplitState(x, y, ops0, marks0, xi0, yi0, ops, marks, xi, yi) == true
    requires xi <= txi && txi - xi == tyi - yi
    requires same > 0 && txi + same <= |x| && tyi + same <= |y|
    requires x[txi..txi + same] == y[tyi..tyi + same]
    ensures SplitState(x, y, ops0, marks0, xi0, yi0, ops + [Op(txi - xi, txi - xi, same)], marks + [false],
                       txi + same, tyi + same) == true
  {
    var d := txi - xi;
    var o := Op(d, d, same);
    assert xi + o.del == txi && yi + o.add == tyi;
    assert xi + o.del + o.keep == txi + same && yi + o.add + o.keep == tyi + same;
    assert txi + same - o.keep == txi && tyi + same - o.keep == tyi;
    CoversSnoc(x, y, ops, o, xi, yi, txi + same, tyi + same);
    RecordsPush(x, y, ops, marks, o, false, xi, yi, txi + same, tyi + same);
    SplitOpsSnoc(ops0, marks0, ops, marks, d, same);
  }

  lemma SplitOpsSnoc(ops0: seq<Op>, marks0: seq<bool>, ops: seq<Op>, marks: seq<bool>, d: nat, same: nat)
    requires |marks| == |ops| && |ops| >= |ops0| && ops[..|ops0|] == ops0 && SplitOps(ops, marks, |ops0|)
    requires |marks0| == |ops0| && marks[..|marks0|] == marks0
    requires same > 0
    ensures SplitOps(ops + [Op(d, d, same)], marks + [false], |ops0|)
    ensures (ops + [Op(d, d, same)])[..|ops0|] == ops0 && (marks + [false])[..|marks0|] == marks0
  {
  }

  /**
   * The sub-split of a change block x[xi..nxi] / y[yi..nyi], with the scan
   * kept inside the block: every run of lines equal on both sides, found at
   * equal offsets into the block, becomes an op of its own whose deleted
   * and added lines are not hashed. Returns the new ops and where the
   * remaining change starts.
   */
  method SubSplit(x: seq<string>, y: seq<string>, ops: seq<Op>, ghost marks: seq<bool>,
                  xi: nat, yi: nat, nxi: nat, nyi: nat)
      returns (ops': seq<Op>, ghost marks': seq<bool>, xi': nat, yi': nat)
    requires xi <= nxi <= |x| && yi <= nyi <= |y|
    requires Covers(x, y, ops, xi, yi) && |marks| == |ops|
    ensures xi <= xi' <= nxi && yi <= yi' <= nyi
    ensures SplitState(x, y, ops, marks, xi, yi, ops', marks', xi', yi')
    ensures SplitRuns(x, y, ops, ops', marks', xi, yi, nxi, nyi) && xi' - xi == yi' - yi
    ensures SplitCovers(x, y, |ops|, ops', xi, yi, nxi, nyi, nxi)
  {
    ops', marks', xi', yi' := ops, marks, xi, yi;
    SplitStart(x, y, ops, marks, xi, yi);
    var txi, tyi := xi, yi;
    while txi < nxi && tyi < nyi
      invariant SplitLoop(x, y, ops, marks, xi, yi, nxi, nyi, ops', marks', xi', yi', txi, tyi)
      invariant SplitCovers(x, y, |ops|, ops', xi, yi, nxi, nyi, txi)
      decreases nxi - txi
    {
      ops', marks', xi', yi', txi, tyi := SplitOnce(x, y, ops, marks, xi, yi, nxi, nyi, ops', marks', xi', yi', txi, tyi);
    }
    SplitCoversAll(x, y, |ops|, ops', xi, yi, nxi, nyi, txi, tyi);
  }

  /** The scan ends past the block on one side, so it has tried every line pair of the block. */
  lemma SplitCoversAll(x: seq<string>, y: seq<string>, n: int, ops: seq<Op>,
                       xi: int, yi: int, nxi: int, nyi: int, txi: int, tyi: int)
    requires SplitCovers(x, y, n, ops, xi, yi, nxi, nyi, txi)
    requires txi - xi == tyi - yi && (txi >= nxi || tyi >= nyi)
    ensures SplitCovers(x, y, n, ops, xi, yi, nxi, nyi, nxi)
  {
  }

  /** One step of the scan: emit the run of equal lines at (txi, tyi), if any, and move past it. */
  method SplitOnce(x: seq<string>, y: seq<string>, ghost ops0: seq<Op>, ghost marks0: seq<bool>,
                   xi: nat, yi: nat, nxi: nat, nyi: nat,
                   ops: seq<Op>, ghost marks: seq<bool>, xs: nat, ys: nat, txi: nat, tyi: nat)
      returns (ops2: seq<Op>, ghost marks2: seq<bool>, xs2: nat, ys2: nat, txi2: nat, tyi2: nat)
    requires xi <= nxi <= |x| && yi <= nyi <= |y| && Covers(x, y, ops0, xi, yi) && |marks0| == |ops0|
    requires SplitLoop(x, y, ops0, marks0, xi, yi, nxi, nyi, ops, marks, xs, ys, txi, tyi)
    requires SplitCovers(x, y, |ops0|, ops, xi, yi, nxi, nyi, txi)
    requires txi < nxi && tyi < nyi
    ensures SplitLoop(x, y, ops0, marks0, xi, yi, nxi, nyi, ops2, marks2, xs2, ys2, txi2, tyi2)
    ensures SplitCovers(x, y, |ops0|, ops2, xi, yi, nxi, nyi, txi2)
    ensures txi < txi2
  {
    var same := RunWithin(x, y, txi, tyi, nxi, nyi);
    ops2, marks2, xs2, ys2 := ops, marks, xs, ys;
    if same > 0 {
      ops2, marks2 := ops + [Op(txi - xs, txi - xs, same)], marks + [false];
      xs2, ys2 := txi + same, tyi + same;
    }
    txi2, tyi2 := txi + same + 1, tyi + same + 1;
    SplitAdvance(x, y, ops0, marks0, xi, yi, nxi, nyi, ops, marks, xs, ys, txi, tyi, same,
                 ops2, marks2, xs2, ys2, txi2, tyi2);
    if same > 0 {
      SplitCoverRun(x, y, |ops0|, ops, xi, yi, nxi, nyi, xs, ys, txi, tyi, same);
    } else {
      SplitCoverMiss(x, y, |ops0|, ops, xi, yi, nxi, nyi, txi, tyi);
    }
  }

  /** A run the scan emits covers the equal lines it starts with and the line after it differs. */
  lemma SplitCoverRun(x: seq<string>, y: seq<string>, n: nat, ops: seq<Op>,
                      xi: nat, yi: nat, nxi: nat, nyi: nat, xs: nat, ys: nat, txi: nat, tyi: nat, same: nat)
    requires Covers(x, y, ops, xs, ys) && n <= |ops| && SplitCovers(x, y, n, ops, xi, yi, nxi, nyi, txi)
    requires xs <= txi && txi - xi == tyi - yi && txi - xs == tyi - ys
    requires same > 0 && txi + same <= nxi <= |x| && tyi + same <= nyi <= |y|
    requires txi + same < nxi && tyi + same < nyi ==> x[txi + same] != y[tyi + same]
    ensures SplitCovers(x, y, n, ops + [Op(txi - xs, txi - xs, same)], xi, yi, nxi, nyi, txi + same + 1)
  {
    var ops2 := ops + [Op(txi - xs, txi - xs, same)];
    CoversCounts(x, y, ops, xs, ys);
    assert ops2[..|ops|] == ops;
    SplitCoverPush(x, y, n, ops, ops2, xi, yi, nxi, nyi, txi, tyi, same);
  }

  /** A new run from txi covers its own equal lines and hands on what the earlier ops covered. */
  lemma SplitCoverPush(x: seq<string>, y: seq<string>, n: nat, ops: seq<Op>, ops2: seq<Op>,
                       xi: nat, yi: nat, nxi: nat, nyi: nat, txi: nat, tyi: nat, same: nat)
    requires n <= |ops| && SplitCovers(x, y, n, ops, xi, yi, nxi, nyi, txi)
    requires |ops2| == |ops| + 1 && ops2[..|ops|] == ops
    requires KeepX(ops2, |ops|) == txi && ops2[|ops|].keep == same
    requires txi - xi == tyi - yi && txi + same <= nxi <= |x| && tyi + same <= nyi <= |y|
    requires txi + same < nxi && tyi + same < nyi ==> x[txi + same] != y[tyi + same]
    ensures SplitCovers(x, y, n, ops2, xi, yi, nxi, nyi, txi + same + 1)
  {
    forall t | && xi <= t < txi + same + 1 && t < nxi && t - xi + yi < nyi && 0 <= t < |x| && 0 <= t - xi + yi < |y|
               && x[t] == y[t - xi + yi]
      ensures KeptFrom(ops2, n, t)
    {
      if t < txi {
        var k :| 0 <= n <= k < |ops| && KeepX(ops, k) <= t < KeepX(ops, k) + ops[k].keep;
        assert ops2[..k + 1] == ops[..k + 1];
        KeepAgree(ops2, ops, k);
      } else {
        assert t < txi + same;
        assert KeepX(ops2, |ops|) <= t < KeepX(ops2, |ops|) + ops2[|ops|].keep;
      }
    }
  }

  /** A line where the scan finds a difference needs no run. */
  lemma SplitCoverMiss(x: seq<string>, y: seq<string>, n: nat, ops: seq<Op>,
                       xi: nat, yi: nat, nxi: nat, nyi: nat, txi: nat, tyi: nat)
    requires SplitCovers(x, y, n, ops, xi, yi, nxi, nyi, txi)
    requires txi - xi == tyi - yi && txi < nxi <= |x| && tyi < nyi <= |y| && x[txi] != y[tyi]
    ensures SplitCovers(x, y, n, ops, xi, yi, nxi, nyi, txi + 1)
  {
  }

  /**
   * What the sub-split's scan keeps from one line it tries to the next.
   * The step lemmas state it as `SplitLoop(..) == true`, which the verifier
   * takes as one fact instead of checking each conjunct at every call.
   */
  ghost predicate SplitLoop(x: seq<string>, y: seq<string>, ops0: seq<Op>, marks0: seq<bool>,
                            xi: int, yi: int, nxi: int, nyi: int,
                            ops: seq<Op>, marks: seq<bool>, xs: int, ys: int, txi: int, tyi: int)
    requires Covers(x, y, ops0, xi, yi) && |marks0| == |ops0|
  {
    && xi <= xs <= txi && yi <= ys <= tyi && txi - xs == tyi - ys && xs - xi == ys - yi
    && xs <= nxi && ys <= nyi
    && SplitState(x, y, ops0, marks0, xi, yi, ops, marks, xs, ys)
    && SplitRuns(x, y, ops0, ops, marks, xi, yi, nxi, nyi)
    && (txi > xi ==> !EqualWithin(x, y, xi, yi, nxi, nyi, txi - 1))
  }

  /**
   * One step of the scan: a run of equal lines found at (txi, tyi) is
   * emitted and the scan goes on past it; with none, it goes on by one.
   */
  lemma SplitAdvance(x: seq<string>, y: seq<string>, ops0: seq<Op>, marks0: seq<bool>,
                     xi: nat, yi: nat, nxi: nat, nyi: nat,
                     ops: seq<Op>, marks: seq<bool>, xs: nat, ys: nat, txi: nat, tyi: nat, same: nat,
                     ops2: seq<Op>, marks2: seq<bool>, xs2: nat, ys2: nat, txi2: nat, tyi2: nat)
    requires xi <= nxi <= |x| && yi <= nyi <= |y| && Covers(x, y, ops0, xi, yi) && |marks0| == |ops0|
    requires SplitLoop(x, y, ops0, marks0, xi, yi, nxi, nyi, ops, marks, xs, ys, txi, tyi) == true
    requires txi < nxi && tyi < nyi
    requires txi + same <= nxi && tyi + same <= nyi && x[txi..txi + same] == y[tyi..tyi + same]
    requires txi + same < nxi && tyi + same < nyi ==> x[txi + same] != y[tyi + same]
    requires txi2 == txi + same + 1 && tyi2 == tyi + same + 1
    requires same > 0 ==> && ops2 == ops + [Op(txi - xs, txi - xs, same)] && marks2 == marks + [false]
                          && xs2 == txi + same && ys2 == tyi + same
    requires same == 0 ==> ops2 == ops && marks2 == marks && xs2 == xs && ys2 == ys
    ensures SplitLoop(x, y, ops0, marks0, xi, yi, nxi, nyi, ops2, marks2, xs2, ys2, txi2, tyi2) == true
  {
    SplitReach(x, y, xi, yi, nxi, nyi, txi, tyi, same);
    if same > 0 {
      SplitEmits(x, y, ops0, marks0, xi, yi, nxi, nyi, ops, marks, xs, ys, txi, tyi, same);
      SplitLoopSame(x, y, ops0, marks0, xi, yi, nxi, nyi, ops + [Op(txi - xs, txi - xs, same)], marks + [false],
                    txi + same, tyi + same, txi + same + 1, tyi + same + 1, ops2, marks2, xs2, ys2, txi2, tyi2);
    } else {
      SplitPast(x, y, ops0, marks0, xi, yi, nxi, nyi, ops2, marks2, xs2, ys2, txi2, tyi2);
    }
  }

  /** The scan's state is a property of the values it holds, however they were reached. */
  lemma SplitLoopSame(x: seq<string>, y: seq<string>, ops0: seq<Op>, marks0: seq<bool>,
                      xi: nat, yi: nat, nxi: nat, nyi: nat,
                      ops: seq<Op>, marks: seq<bool>, xs: nat, ys: nat, txi: nat, tyi: nat,
                      ops2: seq<Op>, marks2: seq<bool>, xs2: nat, ys2: nat, txi2: nat, tyi2: nat)
    requires Covers(x, y, ops0, xi, yi) && |marks0| == |ops0|
    requires SplitLoop(x, y, ops0, marks0, xi, yi, nxi, nyi, ops, marks, xs, ys, txi, tyi) == true
    requires ops2 == ops && marks2 == marks && xs2 == xs && ys2 == ys && txi2 == txi && tyi2 == tyi
    ensures SplitLoop(x, y, ops0, marks0, xi, yi, nxi, nyi, ops2, marks2, xs2, ys2, txi2, tyi2) == true
  {
  }

  /** The scan's state, put together from its parts. */
  lemma SplitPast(x: seq<string>, y: seq<string>, ops0: seq<Op>, marks0: seq<bool>,
                  xi: nat, yi: nat, nxi: nat, nyi: nat,
                  ops: seq<Op>, marks: seq<bool>, xs: nat, ys: nat, txi: nat, tyi: nat)
    requires Covers(x, y, ops0, xi, yi) && |marks0| == |ops0|
    requires xi <= xs <= txi && yi <= ys <= tyi && txi - xs == tyi - ys && xs - xi == ys - yi
    requires xs <= nxi && ys <= nyi
    requires SplitState(x, y, ops0, marks0, xi, yi, ops, marks, xs, ys) == true
    requires SplitRuns(x, y, ops0, ops, marks, xi, yi, nxi, nyi) == true
    requires txi > xi ==> !EqualWithin(x, y, xi, yi, nxi, nyi, txi - 1)
    ensures SplitLoop(x, y, ops0, marks0, xi, yi, nxi, nyi, ops, marks, xs, ys, txi, tyi) == true
  {
  }

  /** The run the scan emits keeps the sub-split's state, is a run of the block, and the scan goes on past it. */
  lemma SplitEmits(x: seq<string>, y: seq<string>, ops0: seq<Op>, marks0: seq<bool>,
                   xi: nat, yi: nat, nxi: nat, nyi: nat,
                   ops: seq<Op>, marks: seq<bool>, xs: nat, ys: nat, txi: nat, tyi: nat, same: nat)
    requires xi <= nxi <= |x| && yi <= nyi <= |y| && Covers(x, y, ops0, xi, yi) && |marks0| == |ops0|
    requires SplitLoop(x, y, ops0, marks0, xi, yi, nxi, nyi, ops, marks, xs, ys, txi, tyi) == true
    requires same > 0 && txi + same <= nxi && tyi + same <= nyi && x[txi..txi + same] == y[tyi..tyi + same]
    requires !EqualWithin(x, y, xi, yi, nxi, nyi, txi + same)
    ensures SplitLoop(x, y, ops0, marks0, xi, yi, nxi, nyi, ops + [Op(txi - xs, txi - xs, same)], marks + [false],
                      txi + same, tyi + same, txi + same + 1, tyi + same + 1) == true
  {
    SplitStep(x, y, ops0, marks0, xi, yi, ops, marks, xs, ys, txi, tyi, same);
    SplitRunsStep(x, y, ops0, ops, marks, xi, yi, nxi, nyi, xs, ys, txi, tyi, same);
    SplitPast(x, y, ops0, marks0, xi, yi, nxi, nyi, ops + [Op(txi - xs, txi - xs, same)], marks + [false],
              txi + same, tyi + same, txi + same + 1, tyi + same + 1);
  }

  /** The equal lines a block starts with end before the next line the scan tries. */
  lemma SplitReach(x: seq<string>, y: seq<string>, xi: int, yi: int, nxi: nat, nyi: nat,
                   txi: nat, tyi: nat, same: nat)
    requires xi <= txi < nxi <= |x| && tyi < nyi <= |y| && txi - xi == tyi - yi
    requires txi > xi ==> !EqualWithin(x, y, xi, yi, nxi, nyi, txi - 1)
    requires txi + same <= nxi && tyi + same <= nyi
    requires txi + same < nxi && tyi + same < nyi ==> x[txi + same] != y[tyi + same]
    ensures !EqualWithin(x, y, xi, yi, nxi, nyi, txi + same)
  {
    if EqualWithin(x, y, xi, yi, nxi, nyi, txi + same) {
      if txi > xi {
        EqualShorter(x, y, xi, yi, txi - 1, txi + same);
      }
    }
  }

  /** A run the sub-split appends is a sub-split run of the block. */
  lemma SplitRunsStep(x: seq<string>, y: seq<string>, ops0: seq<Op>, ops: seq<Op>, marks: seq<bool>,
                      xi: int, yi: int, nxi: int, nyi: int, xs: int, ys: int, txi: int, tyi: int, same: nat)
    requires Covers(x, y, ops, xs, ys) && |marks| == |ops| && SplitRuns(x, y, ops0, ops, marks, xi, yi, nxi, nyi) == true
    requires |ops| >= |ops0| && xi <= xs <= txi && txi - xs == tyi - ys && xs - xi == ys - yi
    requires same > 0 && txi + same <= nxi && tyi + same <= nyi
    requires txi > xi ==> !EqualWithin(x, y, xi, yi, nxi, nyi, txi - 1)
    ensures SplitRuns(x, y, ops0, ops + [Op(txi - xs, txi - xs, same)], marks + [false], xi, yi, nxi, nyi)
  {
    var o := Op(txi - xs, txi - xs, same);
    var ops', marks' := ops + [o], marks + [false];
    CoversCounts(x, y, ops, xs, ys);
    forall k | |ops0| <= k < |ops'|
      ensures RunAt(x, y, ops', marks', k, xi, yi, nxi, nyi)
    {
      if k < |ops| {
        assert ops'[..k + 1] == ops[..k + 1];
        KeepAgree(ops', ops, k);
        assert marks'[k] == marks[k];
        assert RunAt(x, y, ops, marks, k, xi, yi, nxi, nyi);
      } else {
        assert ops'[..k] == ops;
        assert KeepX(ops', k) == txi && KeepY(ops', k) == tyi;
        if o.del > 0 && EqualWithin(x, y, xi, yi, nxi, nyi, txi) {
          EqualShorter(x, y, xi, yi, txi - 1, txi);
        }
      }
    }
  }

  /**
   * Go's hash writes for each line of z[from..to]: the tag, then the line.
   * The model keeps the bytes written rather than the running FNV state;
   * Fnv.FeedAppend makes the two the same.
   */
  method WriteLines(w: string, tag: string, z: seq<string>, from: nat, to: nat) returns (w': string)
    requires from <= to <= |z|
    ensures w' == w + Tagged(tag, z[from..to])
  {
    w' := w;
    for i := from to to
      invariant w' == w + Tagged(tag, z[from..i])
    {
      assert z[from..i + 1] == z[from..i] + [z[i]];
      TaggedSnoc(tag, z[from..i], z[i]);
      w' := w' + tag + z[i];
    }
  }

  /** What the walk keeps between blocks. */
  ghost predicate WalkState(x: seq<string>, y: seq<string>, ms: seq<Anchors.Pair>,
                            ops: seq<Op>, marks: seq<bool>, xi: int, yi: int, w: string)
  {
    && Covers(x, y, ops, xi, yi) && |marks| == |ops|
    && w == Records(x, y, ops, marks, xi, yi)
    && Anchors.ValidAnchors(x, y, ms)
    && HashMarks(ops, marks)
  }

  /** Where the Keep of the last op starts, summed over both sides: grows with every block. */
  function Start(ops: seq<Op>, xi: int, yi: int): int {
    xi + yi - 2 * LastKeep(ops)
  }

  /** A slide by s keeps the text intact on both sides of a pure change. */
  lemma SlideKeeps(x: seq<string>, y: seq<string>, xi: nat, yi: nat, nxi: nat, nyi: nat, k: nat, s: nat)
    requires xi <= nxi <= |x| && yi <= nyi <= |y| && xi < |x| && yi < |y|
    requires s < k <= xi && k <= yi && x[xi - k..xi] == y[yi - k..yi]
    requires (nyi == yi && Slidable(x, xi, nxi, s)) || (nxi == xi && Slidable(y, yi, nyi, s))
    ensures x[nxi - s..nxi] == y[nyi - s..nyi]
  {
    var xs, ys := x[nxi - s..nxi], y[nyi - s..nyi];
    forall j | 0 <= j < s
      ensures xs[j] == ys[j]
    {
      var u := s - j;
      assert x[xi - k..xi][k - u] == y[yi - k..yi][k - u];
      if nyi == yi && Slidable(x, xi, nxi, s) {
        assert Above(x, nxi, u) == Above(x, xi, u);
      } else {
        assert Above(y, nyi, u) == Above(y, yi, u);
      }
    }
  }

  /**
   * A change block and the common lines after it: x[xi..nxi] / y[yi..nyi]
   * differ, x[nxi..dxi] / y[nyi..dyi] are equal.
   */
  ghost predicate Gap(x: seq<string>, y: seq<string>, xi: int, yi: int, nxi: int, nyi: int, dxi: int, dyi: int) {
    && 0 <= xi <= nxi <= dxi <= |x| && 0 <= yi <= nyi <= dyi <= |y|
    && dxi - nxi == dyi - nyi && x[nxi..dxi] == y[nyi..dyi]
  }

  /**
   * The block before the next anchor: back up from the anchor over equal
   * lines, but not past (xi, yi), then extend the anchor down over equal lines.
   */
  method Locate(x: seq<string>, y: seq<string>, ms: seq<Anchors.Pair>, xi: nat, yi: nat)
      returns (nxi: nat, nyi: nat, dxi: nat, dyi: nat)
    requires xi < |x| && yi < |y| && Anchors.ValidAnchors(x, y, ms)
    requires ms[0].x >= xi && ms[0].y >= yi
    ensures Gap(x, y, xi, yi, nxi, nyi, dxi, dyi)
    ensures nxi == xi || nyi == yi || x[nxi - 1] != y[nyi - 1]
    ensures dxi < |x| && dyi < |y| ==> x[dxi] != y[dyi]
    ensures nxi == xi && nyi == yi ==> dxi > nxi
    ensures nxi <= ms[0].x <= dxi && ms[0].y <= dyi && ms[0].x - nxi == ms[0].y - nyi
    ensures ms[0].x < |x| ==> ms[0].x < dxi
  {
    var mx, my := ms[0].x, ms[0].y;
    assert mx <= |x| && my <= |y|;
    nxi, nyi := WalkBack(x, y, xi, yi, mx, my);
    var run := RunWithin(x, y, mx, my, |x|, |y|);
    dxi, dyi := mx + run, my + run;
    assert x[nxi..dxi] == x[nxi..mx] + x[mx..dxi] && y[nyi..dyi] == y[nyi..my] + y[my..dyi];
    if mx < |x| {
      assert 0 < |ms| - 1;
    }
  }

  /**
   * The slide of a pure change: when one side of the block is empty, move
   * it up by the slide the scans pick, taking those lines off the Keep of
   * the previous op. The text stays intact and the records unchanged.
   */
  method Slide(x: seq<string>, y: seq<string>, ops: seq<Op>, ghost marks: seq<bool>,
               xi: nat, yi: nat, nxi: nat, nyi: nat, dxi: nat, dyi: nat)
      returns (ops': seq<Op>, xi': nat, yi': nat, nxi': nat, nyi': nat, dxi': nat, dyi': nat, best: nat)
    requires xi < |x| && yi < |y| && Covers(x, y, ops, xi, yi) && |marks| == |ops|
    requires Gap(x, y, xi, yi, nxi, nyi, dxi, dyi)
    ensures best == 0 || (best < LastKeep(ops) && (nxi == xi || nyi == yi))
    ensures xi' == xi - best && yi' == yi - best && nxi' == nxi - best && nyi' == nyi - best
    ensures dxi' == dxi - best && dyi' == dyi - best
    ensures Gap(x, y, xi', yi', nxi', nyi', dxi', dyi')
    ensures Covers(x, y, ops', xi', yi') && LastKeep(ops') == LastKeep(ops) - best && |ops'| == |ops|
    ensures Records(x, y, ops', marks, xi', yi') == Records(x, y, ops, marks, xi, yi)
    ensures HashMarks(ops, marks) ==> HashMarks(ops', marks)
    ensures ops' == ShrinkLast(ops, best)
    ensures best == 0 || (nyi == yi && Slidable(x, xi, nxi, best)) || (nxi == xi && Slidable(y, yi, nyi, best))
  {
    var maxslide := LastKeep(ops);
    CoversTail(x, y, ops, xi, yi);
    best := PickSlide(x, y, xi, yi, nxi, nyi, maxslide);
    ops' := ShrinkLast(ops, best);
    xi', yi', nxi', nyi', dxi', dyi' := xi - best, yi - best, nxi - best, nyi - best, dxi - best, dyi - best;
    SlideShift(x, y, ops, marks, xi, yi, nxi, nyi, dxi, dyi, maxslide, best, ops', xi', yi', nxi', nyi', dxi', dyi');
    if HashMarks(ops, marks) {
      HashMarksShrink(ops, marks, best);
    }
  }

  /**
   * The two slide scans of Compute: the left side's when the block adds
   * nothing, then the right side's when it deletes nothing, which starts
   * from the left scan's pick.
   */
  method PickSlide(x: seq<string>, y: seq<string>, xi: nat, yi: nat, nxi: nat, nyi: nat, maxslide: int)
      returns (best: nat)
    requires xi <= nxi <= |x| && yi <= nyi <= |y| && xi < |x| && yi < |y| && maxslide <= xi && maxslide <= yi
    ensures best == 0 || best < maxslide
    ensures best == 0 || (nyi == yi && Slidable(x, xi, nxi, best)) || (nxi == xi && Slidable(y, yi, nyi, best))
  {
    best := 0;
    if nyi - yi == 0 {
      best := SlideScan(x, xi, nxi, maxslide, best, Text.CountIndent);
    }
    if nxi - xi == 0 {
      best := SlideScan(y, yi, nyi, maxslide, best, Text.CountIndent);
    }
  }

  /** A slide the scans picked keeps the block's text and records. */
  lemma SlideShift(x: seq<string>, y: seq<string>, ops: seq<Op>, marks: seq<bool>,
                   xi: nat, yi: nat, nxi: nat, nyi: nat, dxi: nat, dyi: nat, k: nat, s: nat,
                   ops': seq<Op>, xi': int, yi': int, nxi': int, nyi': int, dxi': int, dyi': int)
    requires xi < |x| && yi < |y| && Covers(x, y, ops, xi, yi) && |marks| == |ops|
    requires Gap(x, y, xi, yi, nxi, nyi, dxi, dyi)
    requires k == LastKeep(ops) && (s == 0 || s < k)
    requires s == 0 || (nyi == yi && Slidable(x, xi, nxi, s)) || (nxi == xi && Slidable(y, yi, nyi, s))
    requires ops' == ShrinkLast(ops, s)
    requires xi' == xi - s && yi' == yi - s && nxi' == nxi - s && nyi' == nyi - s && dxi' == dxi - s && dyi' == dyi - s
    ensures Gap(x, y, xi', yi', nxi', nyi', dxi', dyi')
    ensures Covers(x, y, ops', xi', yi') && |ops'| == |ops| && LastKeep(ops') == LastKeep(ops) - s
    ensures Records(x, y, ops', marks, xi', yi') == Records(x, y, ops, marks, xi, yi)
  {
    if s == 0 {
      ShrinkNothing(ops);
      assert ops' == ops && xi' == xi && yi' == yi;
      assert nxi' == nxi && nyi' == nyi && dxi' == dxi && dyi' == dyi;
    } else {
      CoversTail(x, y, ops, xi, yi);
      SlideKeeps(x, y, xi, yi, nxi, nyi, k, s);
      ShiftGap(x, y, nxi, nyi, dxi, dyi, s, nxi', nyi', dxi', dyi');
      CoversShrink(x, y, ops, xi, yi, s, ops', xi', yi');
      RecordsShrink(x, y, ops, marks, xi, yi, s, ops', xi', yi');
    }
  }

  /** Equal lines above equal runs let the run move up. */
  lemma ShiftGap(x: seq<string>, y: seq<string>, nxi: nat, nyi: nat, dxi: nat, dyi: nat, s: nat,
                 nxi': int, nyi': int, dxi': int, dyi': int)
    requires s <= nxi <= dxi <= |x| && s <= nyi <= dyi <= |y| && dxi - nxi == dyi - nyi
    requires x[nxi..dxi] == y[nyi..dyi] && x[nxi - s..nxi] == y[nyi - s..nyi]
    requires nxi' == nxi - s && nyi' == nyi - s && dxi' == dxi - s && dyi' == dyi - s
    ensures x[nxi'..dxi'] == y[nyi'..dyi']
  {
    var xs, ys := x[nxi'..dxi'], y[nyi'..dyi'];
    forall j | 0 <= j < |xs|
      ensures xs[j] == ys[j]
    {
      if j < s {
        assert x[nxi - s..nxi][j] == y[nyi - s..nyi][j];
      } else {
        assert x[nxi..dxi][j - s] == y[nyi..dyi][j - s];
      }
    }
  }

  /**
   * Emit the block: sub-split it, write what remains of the change to the
   * hash, deletions first, and append its op, which ends with the common lines.
   */
  method Emit(x: seq<string>, y: seq<string>, ops: seq<Op>, ghost marks: seq<bool>,
              xi: nat, yi: nat, nxi: nat, nyi: nat, dxi: nat, dyi: nat, w: string)
      returns (ops': seq<Op>, ghost marks': seq<bool>, w': string)
    requires Covers(x, y, ops, xi, yi) && |marks| == |ops|
    requires Gap(x, y, xi, yi, nxi, nyi, dxi, dyi)
    requires w == Records(x, y, ops, marks, xi, yi)
    ensures Covers(x, y, ops', dxi, dyi) && |marks'| == |ops'|
    ensures w' == Records(x, y, ops', marks', dxi, dyi)
    ensures Extends(ops, marks, ops', marks') && marks'[|ops'| - 1]
    ensures HashesLast(x, y, ops', w, w', xi, yi, nxi, nyi, dxi)
    ensures HashMarks(ops, marks) ==> HashMarks(ops', marks')
    ensures EmitShape(x, y, ops, ops', marks', xi, yi, nxi, nyi)
    ensures SplitCovers(x, y, |ops|, ops', xi, yi, nxi, nyi, nxi)
  {
    var xs, ys, sops; ghost var smarks;
    sops, smarks, xs, ys := SubSplit(x, y, ops, marks, xi, yi, nxi, nyi);
    assert w == Records(x, y, sops, smarks, xs, ys);
    w' := WriteLines(w, "\n-", x, xs, nxi);
    w' := WriteLines(w', "\n+", y, ys, nyi);
    var o := Op(nxi - xs, nyi - ys, dxi - nxi);
    EmitOp(x, y, sops, smarks, o, xs, ys, nxi, nyi, dxi, dyi);
    ops', marks' := sops + [o], smarks + [true];
    EmitTail(ops, marks, sops, smarks, o);
    EmitRuns(x, y, ops, sops, smarks, o, xi, yi, xs, ys, nxi, nyi);
    CoversSnocKept(x, y, |ops|, sops, o, xi, yi, nxi, nyi);
    if HashMarks(ops, marks) {
      SplitMarks(x, y, ops, marks, xi, yi, sops, smarks, xs, ys);
      HashMarksSnoc(sops, smarks, o);
    }
  }

  /**
   * ops' is ops, then the block's sub-split runs, then its final op, whose
   * Keep starts at (nxi, nyi).
   */
  ghost predicate EmitShape(x: seq<string>, y: seq<string>, ops: seq<Op>, ops': seq<Op>, marks': seq<bool>,
                            xi: int, yi: int, nxi: int, nyi: int)
    requires |ops'| == |marks'|
  {
    && |ops'| > |ops|
    && (forall k :: |ops| <= k < |ops'| - 1 ==> RunAt(x, y, ops', marks', k, xi, yi, nxi, nyi))
    && KeepX(ops', |ops'| - 1) == nxi && KeepY(ops', |ops'| - 1) == nyi
  }

  /** The sub-split's runs stay runs once the block's final op follows them. */
  lemma EmitRuns(x: seq<string>, y: seq<string>, ops: seq<Op>, sops: seq<Op>, smarks: seq<bool>, o: Op,
                 xi: int, yi: int, xs: int, ys: int, nxi: int, nyi: int)
    requires Covers(x, y, sops, xs, ys) && |smarks| == |sops| >= |ops|
    requires SplitRuns(x, y, ops, sops, smarks, xi, yi, nxi, nyi)
    requires o.del == nxi - xs && o.add == nyi - ys
    ensures EmitShape(x, y, ops, sops + [o], smarks + [true], xi, yi, nxi, nyi)
  {
    var ops', marks' := sops + [o], smarks + [true];
    CoversCounts(x, y, sops, xs, ys);
    assert ops'[..|sops|] == sops;
    forall k | |ops| <= k < |ops'| - 1
      ensures RunAt(x, y, ops', marks', k, xi, yi, nxi, nyi)
    {
      assert ops'[..k + 1] == sops[..k + 1];
      KeepAgree(ops', sops, k);
      assert marks'[k] == smarks[k];
      assert RunAt(x, y, sops, smarks, k, xi, yi, nxi, nyi);
    }
  }

  /** The sub-split's runs still cover the block once the block's final op follows them. */
  lemma CoversSnocKept(x: seq<string>, y: seq<string>, n: int, ops: seq<Op>, o: Op,
                       xi: int, yi: int, nxi: int, nyi: int)
    requires SplitCovers(x, y, n, ops, xi, yi, nxi, nyi, nxi)
    ensures SplitCovers(x, y, n, ops + [o], xi, yi, nxi, nyi, nxi)
  {
    var ops' := ops + [o];
    forall t | && xi <= t < nxi && t < nxi && t - xi + yi < nyi && 0 <= t < |x| && 0 <= t - xi + yi < |y|
               && x[t] == y[t - xi + yi]
      ensures KeptFrom(ops', n, t)
    {
      var k :| 0 <= n <= k < |ops| && KeepX(ops, k) <= t < KeepX(ops, k) + ops[k].keep;
      assert ops'[..k + 1] == ops[..k + 1];
      KeepAgree(ops', ops, k);
    }
  }

  /** ops' and marks' extend ops and marks by at least one op. */
  ghost predicate Extends(ops: seq<Op>, marks: seq<bool>, ops': seq<Op>, marks': seq<bool>) {
    |marks'| == |ops'| > |ops| == |marks| && ops'[..|ops|] == ops && marks'[..|marks|] == marks
  }

  /**
   * The last op of ops' is the block's final op: it keeps the common run
   * from (nxi, nyi) to dxi, and what w' adds to w are its deleted lines
   * just above nxi, then its added lines just above nyi.
   */
  ghost predicate HashesLast(x: seq<string>, y: seq<string>, ops': seq<Op>, w: string, w': string,
                             xi: int, yi: int, nxi: int, nyi: int, dxi: int)
  {
    && |ops'| > 0 && 0 <= xi <= nxi <= |x| && 0 <= yi <= nyi <= |y|
    && var o := ops'[|ops'| - 1];
       && o.keep == dxi - nxi && 0 <= o.del <= nxi - xi && 0 <= o.add <= nyi - yi
       && w' == w + Tagged("\n-", x[nxi - o.del..nxi]) + Tagged("\n+", y[nyi - o.add..nyi])
  }

  /** Appending a hashed op keeps the marks right. */
  lemma HashMarksSnoc(ops: seq<Op>, marks: seq<bool>, o: Op)
    requires HashMarks(ops, marks)
    ensures HashMarks(ops + [o], marks + [true])
  {
    forall k | 0 <= k < |ops| + 1 && !(marks + [true])[k]
      ensures (ops + [o])[k].del == (ops + [o])[k].add && (ops + [o])[k].keep > 0
    {
      assert k < |ops| && (ops + [o])[k] == ops[k] && (marks + [true])[k] == marks[k];
    }
  }

  /** The sub-split's ops, then the block's op: the old ops and marks stay a prefix. */
  lemma EmitTail(ops: seq<Op>, marks: seq<bool>, sops: seq<Op>, smarks: seq<bool>, o: Op)
    requires |sops| >= |ops| && sops[..|ops|] == ops && |smarks| == |sops| && |marks| == |ops|
    requires smarks[..|marks|] == marks
    ensures (sops + [o])[..|ops|] == ops && (smarks + [true])[..|marks|] == marks
    ensures (sops + [o])[|sops|] == o && (smarks + [true])[|smarks|]
  {
    assert (sops + [o])[..|ops|] == sops[..|ops|];
    assert (smarks + [true])[..|marks|] == smarks[..|marks|];
  }

  /** The op Emit appends records the block's deletions and additions. */
  lemma EmitOp(x: seq<string>, y: seq<string>, ops: seq<Op>, marks: seq<bool>, o: Op,
               xs: int, ys: int, nxi: int, nyi: int, dxi: int, dyi: int)
    requires Covers(x, y, ops, xs, ys) && |marks| == |ops|
    requires xs <= nxi && ys <= nyi && Gap(x, y, nxi, nyi, nxi, nyi, dxi, dyi)
    requires o == Op(nxi - xs, nyi - ys, dxi - nxi)
    ensures Covers(x, y, ops + [o], dxi, dyi)
    ensures Records(x, y, ops + [o], marks + [true], dxi, dyi)
         == Records(x, y, ops, marks, xs, ys) + Tagged("\n-", x[xs..nxi]) + Tagged("\n+", y[ys..nyi])
  {
    CoversTail(x, y, ops, xs, ys);
    assert xs + o.del + o.keep == dxi && ys + o.add + o.keep == dyi;
    assert dxi - o.keep == nxi && dyi - o.keep == nyi;
    CoversSnoc(x, y, ops, o, xs, ys, dxi, dyi);
    EmitRecords(x, y, ops, marks, o, xs, ys, nxi, nyi, dxi, dyi);
  }

  /** A hashed op writes the lines it deletes and adds, whatever came before it. */
  lemma EmitRecords(x: seq<string>, y: seq<string>, ops: seq<Op>, marks: seq<bool>, o: Op,
                    xs: int, ys: int, nxi: int, nyi: int, dxi: int, dyi: int)
    requires |marks| == |ops| && 0 <= xs <= nxi <= |x| && 0 <= ys <= nyi <= |y|
    requires o == Op(nxi - xs, nyi - ys, dxi - nxi) && dxi - nxi == dyi - nyi
    ensures Records(x, y, ops + [o], marks + [true], dxi, dyi)
         == Records(x, y, ops, marks, xs, ys) + Tagged("\n-", x[xs..nxi]) + Tagged("\n+", y[ys..nyi])
  {
    RecordsPush(x, y, ops, marks, o, true, xs, ys, dxi, dyi);
    assert xs + o.del == nxi && ys + o.add == nyi;
  }

  /** Records of a script extended by the op o, which ends at (xe, ye). */
  lemma RecordsPush(x: seq<string>, y: seq<string>, ops: seq<Op>, marks: seq<bool>, o: Op, m: bool,
                    xi: int, yi: int, xe: int, ye: int)
    requires |marks| == |ops| && 0 <= o.del && 0 <= o.add
    requires 0 <= xi && xi + o.del <= |x| && 0 <= yi && yi + o.add <= |y|
    requires xe == xi + o.del + o.keep && ye == yi + o.add + o.keep
    ensures Records(x, y, ops + [o], marks + [m], xe, ye)
         == if m then Records(x, y, ops, marks, xi, yi) + Tagged("\n-", x[xi..xi + o.del]) + Tagged("\n+", y[yi..yi + o.add])
            else Records(x, y, ops, marks, xi, yi)
  {
    var ops', marks' := ops + [o], marks + [m];
    assert ops'[..|ops'| - 1] == ops && ops'[|ops'| - 1] == o;
    assert marks'[..|marks'| - 1] == marks && marks'[|marks'| - 1] == m;
    assert xe - o.del - o.keep == xi && ye - o.add - o.keep == yi;
  }

  /**
   * One pass of the main loop of Compute: find the block before the next
   * anchor, slide a pure change up, then emit it.
   */
  method Block(x: seq<string>, y: seq<string>, ghost all: seq<Anchors.Pair>, ms: seq<Anchors.Pair>,
               ops: seq<Op>, ghost marks: seq<bool>, xi: nat, yi: nat, w: string)
      returns (ops': seq<Op>, ghost marks': seq<bool>, xi': nat, yi': nat, w': string)
    requires xi < |x| && yi < |y| && WalkState(x, y, ms, ops, marks, xi, yi, w)
    requires ms[0].x >= xi && ms[0].y >= yi
    requires Tracks(x, y, all, ms, ops, marks, xi, yi) && KeepsBehind(all, ops, xi, yi)
    ensures WalkState(x, y, ms, ops', marks', xi', yi', w')
    ensures Tracks(x, y, all, ms, ops', marks', xi', yi') && KeepsBehind(all, ops', xi', yi')
    ensures |ops'| > 0 && marks'[|ops'| - 1]
    ensures |ops'| > |ops| && marks'[..|marks|] == marks
    ensures |ops| > 0 ==> ops'[..|ops| - 1] == ops[..|ops| - 1]
    ensures Start(ops', xi', yi') > Start(ops, xi, yi)
         || (Start(ops', xi', yi') == Start(ops, xi, yi) && xi' + yi' > xi + yi)
  {
    var nxi, nyi, dxi, dyi := Locate(x, y, ms, xi, yi);
    var sops, sxi, syi, snxi, snyi, sdxi, sdyi, best;
    sops, sxi, syi, snxi, snyi, sdxi, sdyi, best := Slide(x, y, ops, marks, xi, yi, nxi, nyi, dxi, dyi);
    ops', marks', w' := Emit(x, y, sops, marks, sxi, syi, snxi, snyi, sdxi, sdyi, w);
    xi', yi' := sdxi, sdyi;
    BlockTracks(x, y, all, ms, ops, marks, xi, yi, nxi, nyi, dxi, dyi, best, sops,
                sxi, syi, snxi, snyi, sdxi, sdyi, ops', marks', w, w');
    KeepsHead(ops, sops, ops');
    assert ms[0] == all[|all| - |ms|];
    BlockKeeps(x, y, all, |all| - |ms|, ops, xi, yi, nxi, nyi, dxi, dyi, best, sxi, syi, snxi, snyi, ops', marks');
  }

  /** Extending a list whose last op was shrunk keeps every op before it. */
  lemma KeepsHead(ops: seq<Op>, sops: seq<Op>, ops': seq<Op>)
    requires |sops| == |ops| < |ops'| && ops'[..|sops|] == sops
    requires |ops| > 0 ==> sops[..|sops| - 1] == ops[..|ops| - 1]
    ensures |ops| > 0 ==> ops'[..|ops| - 1] == ops[..|ops| - 1]
  {
    if |ops| > 0 {
      assert ops'[..|ops| - 1] == ops'[..|sops|][..|sops| - 1];
    }
  }

  /** What Locate, Slide and Emit establish keeps Tracks across a block. */
  lemma BlockTracks(x: seq<string>, y: seq<string>, all: seq<Anchors.Pair>, ms: seq<Anchors.Pair>,
                    ops: seq<Op>, marks: seq<bool>, xi: nat, yi: nat, nxi: nat, nyi: nat, dxi: nat, dyi: nat,
                    best: nat, sops: seq<Op>, sxi: nat, syi: nat, snxi: nat, snyi: nat, sdxi: nat, sdyi: nat,
                    ops': seq<Op>, marks': seq<bool>, w: string, w': string)
    requires xi < |x| && yi < |y| && Covers(x, y, ops, xi, yi) && |marks| == |ops| && Anchors.ValidAnchors(x, y, ms)
    requires Tracks(x, y, all, ms, ops, marks, xi, yi)
    requires Gap(x, y, xi, yi, nxi, nyi, dxi, dyi)
    requires dxi < |x| && dyi < |y| ==> x[dxi] != y[dyi]
    requires nxi == xi && nyi == yi ==> dxi > nxi
    requires nxi <= ms[0].x <= dxi && ms[0].y <= dyi && ms[0].x - nxi == ms[0].y - nyi
    requires ms[0].x < |x| ==> ms[0].x < dxi
    requires best == 0 || (best < LastKeep(ops) && (nxi == xi || nyi == yi))
    requires sxi == xi - best && syi == yi - best && snxi == nxi - best && snyi == nyi - best
    requires sdxi == dxi - best && sdyi == dyi - best
    requires sops == ShrinkLast(ops, best)
    requires best == 0 || (nyi == yi && Slidable(x, xi, nxi, best)) || (nxi == xi && Slidable(y, yi, nyi, best))
    requires |marks'| == |ops'| && Extends(sops, marks, ops', marks') && marks'[|ops'| - 1]
    requires HashesLast(x, y, ops', w, w', sxi, syi, snxi, snyi, sdxi)
    requires EmitShape(x, y, sops, ops', marks', sxi, syi, snxi, snyi)
    ensures Tracks(x, y, all, ms, ops', marks', sdxi, sdyi)
  {
    var n := |all| - |ms|;
    assert ms[0] == all[n];
    BlockPassed(x, y, all, n, ops, xi, yi, nxi, nyi, dxi, dyi, best, sdxi, sdyi);
    BlockSkips(x, y, all, n, ops, marks, ops', marks', xi, yi, nxi, nyi, dxi, dyi, best, sdxi, sdyi);
  }

  /**
   * The anchors behind the walk stay kept across a block. Those behind it
   * before stay on their runs; those the block passes lie on its final
   * common run or, on the diagonal of its start, on a sub-split run.
   */
  lemma BlockKeeps(x: seq<string>, y: seq<string>, all: seq<Anchors.Pair>, n: nat, ops: seq<Op>,
                   xi: nat, yi: nat, nxi: nat, nyi: nat, dxi: nat, dyi: nat, best: nat,
                   sxi: int, syi: int, snxi: int, snyi: int, ops': seq<Op>, marks': seq<bool>)
    requires Anchors.ValidAnchors(x, y, all) && n < |all| && Passed(x, y, all, n, xi, yi)
    requires xi < |x| && yi < |y| && Covers(x, y, ops, xi, yi) && KeepsBehind(all, ops, xi, yi)
    requires Gap(x, y, xi, yi, nxi, nyi, dxi, dyi)
    requires nxi <= all[n].x <= dxi && all[n].y <= dyi && all[n].x - nxi == all[n].y - nyi
    requires best == 0 || (best < LastKeep(ops) && (nxi == xi || nyi == yi))
    requires best == 0 || (nyi == yi && Slidable(x, xi, nxi, best)) || (nxi == xi && Slidable(y, yi, nyi, best))
    requires |marks'| == |ops'| > |ops| && ops'[..|ops|] == ShrinkLast(ops, best)
    requires KeepX(ops', |ops'| - 1) == nxi - best && KeepY(ops', |ops'| - 1) == nyi - best
    requires ops'[|ops'| - 1].keep == dxi - nxi
    requires sxi == xi - best && syi == yi - best && snxi == nxi - best && snyi == nyi - best
    requires forall k :: |ops| <= k < |ops'| - 1 ==> RunAt(x, y, ops', marks', k, sxi, syi, snxi, snyi)
    requires SplitCovers(x, y, |ops|, ops', sxi, syi, snxi, snyi, snxi)
    ensures KeepsBehind(all, ops', dxi - best, dyi - best)
  {
    forall j | 0 <= j < |all| - 1 && (all[j].x < dxi - best || all[j].y < dyi - best)
      ensures Kept(all[j], ops')
    {
      KeptAcross(x, y, all, n, j, ops, xi, yi, nxi, nyi, dxi, dyi, best, sxi, syi, snxi, snyi, ops', marks');
    }
  }

  /** One anchor behind the walk after a block is kept, by where it lies against the block. */
  lemma KeptAcross(x: seq<string>, y: seq<string>, all: seq<Anchors.Pair>, n: nat, j: nat, ops: seq<Op>,
                   xi: nat, yi: nat, nxi: nat, nyi: nat, dxi: nat, dyi: nat, best: nat,
                   sxi: int, syi: int, snxi: int, snyi: int, ops': seq<Op>, marks': seq<bool>)
    requires Anchors.ValidAnchors(x, y, all) && n < |all| && Passed(x, y, all, n, xi, yi)
    requires xi < |x| && yi < |y| && Covers(x, y, ops, xi, yi) && KeepsBehind(all, ops, xi, yi)
    requires Gap(x, y, xi, yi, nxi, nyi, dxi, dyi)
    requires nxi <= all[n].x <= dxi && all[n].y <= dyi && all[n].x - nxi == all[n].y - nyi
    requires best == 0 || (best < LastKeep(ops) && (nxi == xi || nyi == yi))
    requires best == 0 || (nyi == yi && Slidable(x, xi, nxi, best)) || (nxi == xi && Slidable(y, yi, nyi, best))
    requires |marks'| == |ops'| > |ops| && ops'[..|ops|] == ShrinkLast(ops, best)
    requires KeepX(ops', |ops'| - 1) == nxi - best && KeepY(ops', |ops'| - 1) == nyi - best
    requires ops'[|ops'| - 1].keep == dxi - nxi
    requires sxi == xi - best && syi == yi - best && snxi == nxi - best && snyi == nyi - best
    requires forall k :: |ops| <= k < |ops'| - 1 ==> RunAt(x, y, ops', marks', k, sxi, syi, snxi, snyi)
    requires SplitCovers(x, y, |ops|, ops', sxi, syi, snxi, snyi, snxi)
    requires j < |all| - 1 && (all[j].x < dxi - best || all[j].y < dyi - best)
    ensures Kept(all[j], ops')
  {
    var a := all[j];
    if a.x < xi || a.y < yi {
      KeptOld(x, y, all, j, ops, xi, yi, nxi, nyi, dxi, dyi, best, ops');
    } else if a.x >= nxi || a.y >= nyi {
      KeptFinal(x, y, all, j, n, xi, yi, nxi, nyi, dxi, dyi, best, ops');
    } else {
      AnchorBefore(x, y, all, j, n);
      assert Behind(x, y, a, xi, yi) && best == 0;
      KeptSplit(x, y, all, j, |ops|, ops', marks', sxi, syi, snxi, snyi);
    }
  }

  /** Anchors are ordered: one left of the nth anchor comes before it. */
  lemma AnchorBefore(x: seq<string>, y: seq<string>, ms: seq<Anchors.Pair>, j: nat, n: nat)
    requires Anchors.ValidAnchors(x, y, ms) && j < |ms| && n < |ms|
    ensures ms[j].x < ms[n].x ==> j < n
  {
    if n < j {
      assert ms[n].x < ms[j].x;
    }
  }

  /**
   * An anchor the walk had left behind stays kept across a block: the ops
   * before the last are untouched, and a slide takes off the last op's run
   * only lines no anchor reaches or, for a block with no change, hands
   * them to the block's final op.
   */
  lemma KeptOld(x: seq<string>, y: seq<string>, ms: seq<Anchors.Pair>, j: nat, ops: seq<Op>,
                xi: nat, yi: nat, nxi: nat, nyi: nat, dxi: nat, dyi: nat, best: nat, ops': seq<Op>)
    requires Anchors.ValidAnchors(x, y, ms) && j < |ms| - 1 && Kept(ms[j], ops)
    requires xi < |x| && Covers(x, y, ops, xi, yi) && Gap(x, y, xi, yi, nxi, nyi, dxi, dyi)
    requires ms[j].x < dxi - best || ms[j].y < dyi - best
    requires best == 0 || (best < LastKeep(ops) && (nxi == xi || nyi == yi))
    requires best == 0 || (nyi == yi && Slidable(x, xi, nxi, best)) || (nxi == xi && Slidable(y, yi, nyi, best))
    requires |ops'| > |ops| && ops'[..|ops|] == ShrinkLast(ops, best)
    requires KeepX(ops', |ops'| - 1) == nxi - best && KeepY(ops', |ops'| - 1) == nyi - best
    requires ops'[|ops'| - 1].keep == dxi - nxi
    ensures Kept(ms[j], ops')
  {
    var k :| 0 <= k < |ops| && OnRun(ms[j], KeepX(ops, k), KeepY(ops, k), ops[k].keep);
    if k < |ops| - 1 {
      KeptEarlier(ms[j], ops, ops', k, best);
    } else {
      KeptShrunk(x, y, ms, j, ops, xi, yi, nxi, nyi, dxi, dyi, best, ops');
    }
  }

  /** Shrinking the last op leaves the runs of the ops before it where they were. */
  lemma KeptEarlier(a: Anchors.Pair, ops: seq<Op>, ops': seq<Op>, k: nat, best: nat)
    requires k < |ops| - 1 && |ops'| > |ops| && ops'[..|ops|] == ShrinkLast(ops, best)
    requires OnRun(a, KeepX(ops, k), KeepY(ops, k), ops[k].keep)
    ensures Kept(a, ops')
  {
    var r := ShrinkLast(ops, best);
    assert ops'[..k + 1] == r[..|ops| - 1][..k + 1] == ops[..k + 1];
    KeptPrefix(a, ops, ops', k);
  }

  /** An anchor on the run of the last op before a block: the shrunk op or the block's run keeps it. */
  lemma KeptShrunk(x: seq<string>, y: seq<string>, ms: seq<Anchors.Pair>, j: nat, ops: seq<Op>,
                   xi: nat, yi: nat, nxi: nat, nyi: nat, dxi: nat, dyi: nat, best: nat, ops': seq<Op>)
    requires Anchors.ValidAnchors(x, y, ms) && j < |ms| - 1 && |ops| > 0
    requires OnRun(ms[j], KeepX(ops, |ops| - 1), KeepY(ops, |ops| - 1), ops[|ops| - 1].keep)
    requires xi < |x| && Covers(x, y, ops, xi, yi) && Gap(x, y, xi, yi, nxi, nyi, dxi, dyi)
    requires ms[j].x < dxi - best || ms[j].y < dyi - best
    requires best == 0 || (best < LastKeep(ops) && (nxi == xi || nyi == yi))
    requires best == 0 || (nyi == yi && Slidable(x, xi, nxi, best)) || (nxi == xi && Slidable(y, yi, nyi, best))
    requires |ops'| > |ops| && ops'[..|ops|] == ShrinkLast(ops, best)
    requires KeepX(ops', |ops'| - 1) == nxi - best && KeepY(ops', |ops'| - 1) == nyi - best
    requires ops'[|ops'| - 1].keep == dxi - nxi
    ensures Kept(ms[j], ops')
  {
    var k := |ops| - 1;
    var r := ShrinkLast(ops, best);
    LastKeepEnds(x, y, ops, xi, yi);
    ShrinkKeeps(ops, best);
    assert ops'[..k + 1] == r[..k + 1];
    KeepAgree(ops', r, k);
    KeptLast(x, y, ms, j, k, ops', xi, yi, nxi, nyi, dxi, dyi, best);
  }

  /**
   * An anchor on the run of the op a block shrinks: either the slide left
   * it on that run, or the block has no change and its final run takes up
   * the slid lines; a slide over a deletion or an addition moves only
   * lines no anchor sits on.
   */
  lemma KeptLast(x: seq<string>, y: seq<string>, ms: seq<Anchors.Pair>, j: nat, k: nat, ops': seq<Op>,
                 xi: nat, yi: nat, nxi: nat, nyi: nat, dxi: nat, dyi: nat, best: nat)
    requires Anchors.ValidAnchors(x, y, ms) && j < |ms| - 1 && Gap(x, y, xi, yi, nxi, nyi, dxi, dyi)
    requires k < |ops'| - 1
    requires KeepX(ops', k) + ops'[k].keep + best == xi && KeepY(ops', k) + ops'[k].keep + best == yi
    requires OnRun(ms[j], KeepX(ops', k), KeepY(ops', k), ops'[k].keep + best)
    requires ms[j].x < dxi - best || ms[j].y < dyi - best
    requires best == 0 || nxi == xi || nyi == yi
    requires best == 0 || (nyi == yi && Slidable(x, xi, nxi, best)) || (nxi == xi && Slidable(y, yi, nyi, best))
    requires KeepX(ops', |ops'| - 1) == nxi - best && KeepY(ops', |ops'| - 1) == nyi - best
    requires ops'[|ops'| - 1].keep == dxi - nxi
    ensures Kept(ms[j], ops')
  {
    var a := ms[j];
    if best == 0 || a.x < xi - best {
      assert OnRun(a, KeepX(ops', k), KeepY(ops', k), ops'[k].keep);
    } else if nxi == xi && nyi == yi {
      var f := |ops'| - 1;
      assert OnRun(a, KeepX(ops', f), KeepY(ops', f), ops'[f].keep);
    } else if nyi == yi && Slidable(x, xi, nxi, best) {
      SlidX(x, y, ms, j, xi, nxi, best);
      assert false;
    } else {
      SlidY(x, y, ms, j, yi, nyi, best);
      assert false;
    }
  }

  /**
   * An anchor at or past the block's change, now behind the walk, lies on
   * the block's final common run: its lines are unique, and that run pairs
   * them on its diagonal.
   */
  lemma KeptFinal(x: seq<string>, y: seq<string>, ms: seq<Anchors.Pair>, j: nat, n: nat,
                  xi: nat, yi: nat, nxi: nat, nyi: nat, dxi: nat, dyi: nat, best: nat, ops': seq<Op>)
    requires Anchors.ValidAnchors(x, y, ms) && j < |ms| - 1 && n < |ms|
    requires Gap(x, y, xi, yi, nxi, nyi, dxi, dyi)
    requires nxi <= ms[n].x <= dxi && ms[n].y <= dyi && ms[n].x - nxi == ms[n].y - nyi
    requires ms[j].x >= nxi || ms[j].y >= nyi
    requires ms[j].x < dxi - best || ms[j].y < dyi - best
    requires |ops'| > 0 && KeepX(ops', |ops'| - 1) == nxi - best && KeepY(ops', |ops'| - 1) == nyi - best
    requires ops'[|ops'| - 1].keep == dxi - nxi
    ensures Kept(ms[j], ops')
  {
    var a := ms[j];
    if j < n {
      assert a.x < ms[n].x && a.y < ms[n].y;
    } else if j > n {
      assert ms[n].x < a.x && ms[n].y < a.y;
    }
    if nxi <= a.x < dxi {
      GapAt(x, y, xi, yi, nxi, nyi, dxi, dyi, a.x);
      PairedX(x, y, ms, j, a.x - nxi + nyi);
    } else {
      GapAt(x, y, xi, yi, nxi, nyi, dxi, dyi, a.y - nyi + nxi);
      PairedY(x, y, ms, j, a.y - nyi + nxi);
    }
    var f := |ops'| - 1;
    assert OnRun(a, KeepX(ops', f), KeepY(ops', f), ops'[f].keep);
  }

  /**
   * An anchor inside the block, on the diagonal of its start, lies on one
   * of the block's sub-split runs: its lines are equal there.
   */
  lemma KeptSplit(x: seq<string>, y: seq<string>, ms: seq<Anchors.Pair>, j: nat, n: nat,
                  ops': seq<Op>, marks': seq<bool>, xi: int, yi: int, nxi: int, nyi: int)
    requires Anchors.ValidAnchors(x, y, ms) && j < |ms| - 1
    requires xi <= ms[j].x < nxi && yi <= ms[j].y < nyi && ms[j].x - xi == ms[j].y - yi
    requires |marks'| == |ops'| > 0 && n <= |ops'| - 1
    requires forall k :: n <= k < |ops'| - 1 ==> RunAt(x, y, ops', marks', k, xi, yi, nxi, nyi)
    requires KeepX(ops', |ops'| - 1) == nxi
    requires SplitCovers(x, y, n, ops', xi, yi, nxi, nyi, nxi)
    ensures Kept(ms[j], ops')
  {
    var a := ms[j];
    assert x[a.x] == y[a.x - xi + yi];
    var k :| 0 <= n <= k < |ops'| && KeepX(ops', k) <= a.x < KeepX(ops', k) + ops'[k].keep;
    assert k < |ops'| - 1;
    assert RunAt(x, y, ops', marks', k, xi, yi, nxi, nyi);
    assert OnRun(a, KeepX(ops', k), KeepY(ops', k), ops'[k].keep);
  }

  /**
   * What the walk keeps about the anchors: ms is what is left of all the
   * anchors, the ones dropped are behind (xi, yi), and Skips holds.
   */
  ghost predicate Tracks(x: seq<string>, y: seq<string>, all: seq<Anchors.Pair>, ms: seq<Anchors.Pair>,
                         ops: seq<Op>, marks: seq<bool>, xi: int, yi: int)
    requires |marks| == |ops|
  {
    && Anchors.ValidAnchors(x, y, all) && |ms| <= |all| && ms == all[|all| - |ms|..]
    && Passed(x, y, all, |all| - |ms|, xi, yi) && Skips(x, y, all, ops, marks, xi, yi)
  }

  /** Dropping anchors that lie above (xi, yi) keeps them passed. */
  lemma SkipPassed(x: seq<string>, y: seq<string>, all: seq<Anchors.Pair>, ms: seq<Anchors.Pair>,
                   ms': seq<Anchors.Pair>, xi: int, yi: int)
    requires |ms| <= |all| && ms == all[|all| - |ms|..] && Passed(x, y, all, |all| - |ms|, xi, yi)
    requires |ms'| <= |ms| && ms' == ms[|ms| - |ms'|..]
    requires forall j :: 0 <= j < |ms| - |ms'| ==> ms[j].x < xi || ms[j].y < yi
    ensures ms' == all[|all| - |ms'|..] && Passed(x, y, all, |all| - |ms'|, xi, yi)
  {
    var d := |all| - |ms|;
    forall j | d <= j < |all| - |ms'|
      ensures all[j].x < xi || all[j].y < yi
    {
      assert all[j] == ms[j - d];
    }
  }

  /** The last t lines the ops keep are equal on the diagonal of (xi, yi). */
  lemma KeepWindow(x: seq<string>, y: seq<string>, ops: seq<Op>, xi: int, yi: int, t: int)
    requires Covers(x, y, ops, xi, yi) && 0 <= t <= LastKeep(ops)
    ensures t <= xi <= |x| && t <= yi <= |y|
    ensures forall i :: xi - t <= i < xi ==> x[i] == y[i - xi + yi]
  {
    CoversTail(x, y, ops, xi, yi);
    var k := LastKeep(ops);
    forall i | xi - t <= i < xi
      ensures x[i] == y[i - xi + yi]
    {
      assert x[xi - k..xi][i - (xi - k)] == y[yi - k..yi][i - (xi - k)];
    }
  }

  /** A line of the common run after a block equals its partner on the run's diagonal. */
  lemma GapAt(x: seq<string>, y: seq<string>, xi: int, yi: int, nxi: int, nyi: int, dxi: int, dyi: int, i: int)
    requires Gap(x, y, xi, yi, nxi, nyi, dxi, dyi) && nxi <= i < dxi
    ensures i - nxi + nyi < dyi && x[i] == y[i - nxi + nyi]
  {
    assert x[nxi..dxi][i - nxi] == y[nyi..dyi][i - nxi];
  }

  /**
   * An anchor behind the walk before a block is behind it after the block:
   * a block without a slide ends past the next anchor, and a slide moves
   * back only over lines that occur twice, or, for a block with no change,
   * over equal lines on the walk's diagonal.
   */
  lemma BehindBlock(x: seq<string>, y: seq<string>, ms: seq<Anchors.Pair>, j: nat, n: nat,
                    xi: nat, yi: nat, nxi: nat, nyi: nat, dxi: nat, dyi: nat, best: nat)
    requires Anchors.ValidAnchors(x, y, ms) && j < n < |ms| && Behind(x, y, ms[j], xi, yi)
    requires xi < |x| && yi < |y| && Gap(x, y, xi, yi, nxi, nyi, dxi, dyi)
    requires nxi <= ms[n].x <= dxi && ms[n].y <= dyi
    requires best <= xi && best <= yi && forall i :: xi - best <= i < xi ==> x[i] == y[i - xi + yi]
    requires || best == 0 || (nxi == xi && nyi == yi)
             || (nyi == yi && xi < nxi && Slidable(x, xi, nxi, best))
             || (nxi == xi && yi < nyi && Slidable(y, yi, nyi, best))
    ensures Behind(x, y, ms[j], dxi - best, dyi - best)
  {
    if best == 0 {
    } else if nxi == xi && nyi == yi {
      BehindEmpty(x, y, ms, j, n, xi, yi, nxi, nyi, dxi, dyi, best);
    } else if nyi == yi && xi < nxi && Slidable(x, xi, nxi, best) {
      BehindDeletion(x, y, ms, j, n, xi, yi, nxi, nyi, dxi, dyi, best);
    } else {
      BehindInsertion(x, y, ms, j, n, xi, yi, nxi, nyi, dxi, dyi, best);
    }
  }

  /** An empty block slid up: the walk backs up over equal lines no anchor reaches. */
  lemma BehindEmpty(x: seq<string>, y: seq<string>, ms: seq<Anchors.Pair>, j: nat, n: nat,
                    xi: nat, yi: nat, nxi: nat, nyi: nat, dxi: nat, dyi: nat, best: nat)
    requires Anchors.ValidAnchors(x, y, ms) && j < n < |ms| && Behind(x, y, ms[j], xi, yi)
    requires xi < |x| && yi < |y| && Gap(x, y, xi, yi, nxi, nyi, dxi, dyi)
    requires nxi <= ms[n].x <= dxi && ms[n].y <= dyi
    requires best <= xi && best <= yi && forall i :: xi - best <= i < xi ==> x[i] == y[i - xi + yi]
    requires nxi == xi && nyi == yi
    ensures Behind(x, y, ms[j], dxi - best, dyi - best)
  {
    var a := ms[j];
    var px, py := dxi - best, dyi - best;
    assert a.x < ms[n].x && a.y < ms[n].y && a.x < |x| && a.y < |y|;
    if a.x >= px && a.y >= py {
      if a.x < xi {
        PairedX(x, y, ms, j, a.x - xi + yi);
      } else if a.y < yi {
        PairedY(x, y, ms, j, a.y - yi + xi);
      }
      forall i | px <= i <= a.x
        ensures x[i] == y[i - px + py]
      {
        if i >= xi {
          assert x[i] == y[i - xi + yi];
        }
      }
    }
  }

  /** A pure deletion slid up: the slid lines of x hold no anchor. */
  lemma BehindDeletion(x: seq<string>, y: seq<string>, ms: seq<Anchors.Pair>, j: nat, n: nat,
                    xi: nat, yi: nat, nxi: nat, nyi: nat, dxi: nat, dyi: nat, best: nat)
    requires Anchors.ValidAnchors(x, y, ms) && j < n < |ms| && Behind(x, y, ms[j], xi, yi)
    requires xi < |x| && yi < |y| && Gap(x, y, xi, yi, nxi, nyi, dxi, dyi)
    requires nxi <= ms[n].x <= dxi && ms[n].y <= dyi
    requires best <= xi && best <= yi && forall i :: xi - best <= i < xi ==> x[i] == y[i - xi + yi]
    requires nyi == yi && xi < nxi && Slidable(x, xi, nxi, best)
    ensures Behind(x, y, ms[j], dxi - best, dyi - best)
  {
    var a := ms[j];
    assert a.x < ms[n].x && a.y < ms[n].y && a.x < |x| && a.y < |y|;
    if a.x < xi {
      SlidX(x, y, ms, j, xi, nxi, best);
    } else if a.y < yi {
      if a.y >= yi - best {
        PairedY(x, y, ms, j, a.y - yi + xi);
      }
    } else {
      GapAt(x, y, xi, yi, nxi, nyi, dxi, dyi, a.y - nyi + nxi);
      PairedY(x, y, ms, j, a.y - nyi + nxi);
    }
  }

  /** A pure insertion slid up: the slid lines of y hold no anchor. */
  lemma BehindInsertion(x: seq<string>, y: seq<string>, ms: seq<Anchors.Pair>, j: nat, n: nat,
                    xi: nat, yi: nat, nxi: nat, nyi: nat, dxi: nat, dyi: nat, best: nat)
    requires Anchors.ValidAnchors(x, y, ms) && j < n < |ms| && Behind(x, y, ms[j], xi, yi)
    requires xi < |x| && yi < |y| && Gap(x, y, xi, yi, nxi, nyi, dxi, dyi)
    requires nxi <= ms[n].x <= dxi && ms[n].y <= dyi
    requires best <= xi && best <= yi && forall i :: xi - best <= i < xi ==> x[i] == y[i - xi + yi]
    requires nxi == xi && yi < nyi && Slidable(y, yi, nyi, best)
    ensures Behind(x, y, ms[j], dxi - best, dyi - best)
  {
    var a := ms[j];
    assert a.x < ms[n].x && a.y < ms[n].y && a.x < |x| && a.y < |y|;
    if a.x < xi {
      if a.x >= xi - best {
        PairedX(x, y, ms, j, a.x - xi + yi);
        SlidY(x, y, ms, j, yi, nyi, best);
      }
    } else if a.y < yi {
      SlidY(x, y, ms, j, yi, nyi, best);
    } else {
      GapAt(x, y, xi, yi, nxi, nyi, dxi, dyi, a.x);
      PairedX(x, y, ms, j, a.x - nxi + nyi);
    }
  }

  /** The anchors the walk has passed stay passed across a block. */
  lemma BlockPassed(x: seq<string>, y: seq<string>, ms: seq<Anchors.Pair>, n: nat, ops: seq<Op>,
                    xi: nat, yi: nat, nxi: nat, nyi: nat, dxi: nat, dyi: nat, best: nat, px: int, py: int)
    requires Anchors.ValidAnchors(x, y, ms) && n < |ms| && Passed(x, y, ms, n, xi, yi)
    requires xi < |x| && yi < |y| && Covers(x, y, ops, xi, yi) && Gap(x, y, xi, yi, nxi, nyi, dxi, dyi)
    requires nxi <= ms[n].x <= dxi && ms[n].y <= dyi
    requires best == 0 || (best < LastKeep(ops) && (nxi == xi || nyi == yi))
    requires best == 0 || (nyi == yi && Slidable(x, xi, nxi, best)) || (nxi == xi && Slidable(y, yi, nyi, best))
    requires px == dxi - best && py == dyi - best
    ensures Passed(x, y, ms, n, px, py)
  {
    KeepWindow(x, y, ops, xi, yi, best);
    forall j | 0 <= j < n
      ensures Behind(x, y, ms[j], px, py)
    {
      BehindBlock(x, y, ms, j, n, xi, yi, nxi, nyi, dxi, dyi, best);
    }
  }

  /** The Keep of the last op ends where the walk stands. */
  lemma LastKeepEnds(x: seq<string>, y: seq<string>, ops: seq<Op>, xi: int, yi: int)
    requires Covers(x, y, ops, xi, yi) && |ops| > 0
    ensures KeepX(ops, |ops| - 1) + ops[|ops| - 1].keep == xi
    ensures KeepY(ops, |ops| - 1) + ops[|ops| - 1].keep == yi
  {
    var k := |ops| - 1;
    CoversCounts(x, y, ops, xi, yi);
    assert ops == ops[..k] + [ops[k]];
  }

  /** Shrinking the last Keep leaves where it starts alone. */
  lemma ShrinkKeeps(ops: seq<Op>, best: int)
    requires |ops| > 0
    ensures KeepX(ShrinkLast(ops, best), |ops| - 1) == KeepX(ops, |ops| - 1)
    ensures KeepY(ShrinkLast(ops, best), |ops| - 1) == KeepY(ops, |ops| - 1)
    ensures ShrinkLast(ops, best)[|ops| - 1].keep == ops[|ops| - 1].keep - best
  {
  }

  /**
   * A slide before a block takes lines off the Keep of the last op, but
   * none that an anchor reaches: those occur once, the slid lines twice.
   */
  lemma ShrunkAnchored(x: seq<string>, y: seq<string>, ms: seq<Anchors.Pair>, ops: seq<Op>,
                       xi: nat, yi: nat, nxi: nat, nyi: nat, best: nat)
    requires Anchors.ValidAnchors(x, y, ms) && Covers(x, y, ops, xi, yi) && xi < |x|
    requires |ops| > 0 && Anchored(ms, ops, |ops| - 1)
    requires || best == 0
             || (best < LastKeep(ops) && nyi == yi && xi < nxi <= |x| && Slidable(x, xi, nxi, best))
             || (best < LastKeep(ops) && nxi == xi && yi < nyi <= |y| && Slidable(y, yi, nyi, best))
    ensures Anchored(ms, ShrinkLast(ops, best), |ops| - 1)
  {
    var k := |ops| - 1;
    var r := ShrinkLast(ops, best);
    var j :| 0 <= j < |ms| && OnRun(ms[j], KeepX(ops, k), KeepY(ops, k), ops[k].keep);
    LastKeepEnds(x, y, ops, xi, yi);
    ShrinkKeeps(ops, best);
    if best > 0 {
      if nyi == yi && xi < nxi <= |x| && Slidable(x, xi, nxi, best) {
        SlidX(x, y, ms, j, xi, nxi, best);
      } else {
        SlidY(x, y, ms, j, yi, nyi, best);
      }
    }
    assert OnRun(ms[j], KeepX(r, k), KeepY(r, k), r[k].keep);
  }

  /**
   * No anchor reaches a sub-split run that deletes: the anchors ahead lie
   * past the block, and those behind are either above it or on its
   * diagonal with equal lines from its top, which the run lies past.
   */
  lemma RunsUnanchored(x: seq<string>, y: seq<string>, ms: seq<Anchors.Pair>, n: nat, ops: seq<Op>, marks: seq<bool>,
                       k: nat, xi: int, yi: int, nxi: int, nyi: int)
    requires Anchors.ValidAnchors(x, y, ms) && n < |ms| && Passed(x, y, ms, n, xi, yi) && nxi <= ms[n].x
    requires k < |ops| == |marks| && RunAt(x, y, ops, marks, k, xi, yi, nxi, nyi) && Balanced(ops[k])
    ensures !Anchored(ms, ops, k)
  {
  }

  /**
   * The final op of a block that deletes as many lines as it adds was not
   * slid; its Keep starts on the next anchor's diagonal and holds that
   * anchor, unless the anchor is the end of both sides.
   */
  lemma FinalAnchored(x: seq<string>, y: seq<string>, ms: seq<Anchors.Pair>, n: nat, ops: seq<Op>,
                      xi: nat, yi: nat, nxi: nat, nyi: nat, dxi: nat, dyi: nat)
    requires Anchors.ValidAnchors(x, y, ms) && n < |ms| && Gap(x, y, xi, yi, nxi, nyi, dxi, dyi)
    requires nxi <= ms[n].x <= dxi && ms[n].y <= dyi && ms[n].x - nxi == ms[n].y - nyi
    requires ms[n].x < |x| ==> ms[n].x < dxi
    requires |ops| > 0 && KeepX(ops, |ops| - 1) == nxi && KeepY(ops, |ops| - 1) == nyi
    requires ops[|ops| - 1].keep == dxi - nxi
    ensures Anchored(ms, ops, |ops| - 1) || (dxi == |x| && dyi == |y|)
  {
    if ms[n].x < |x| {
      assert OnRun(ms[n], nxi, nyi, dxi - nxi);
    }
  }

  /** A block keeps what the walk knows about the hash. */
  lemma BlockSkips(x: seq<string>, y: seq<string>, ms: seq<Anchors.Pair>, n: nat,
                   ops: seq<Op>, marks: seq<bool>, ops': seq<Op>, marks': seq<bool>,
                   xi: nat, yi: nat, nxi: nat, nyi: nat, dxi: nat, dyi: nat, best: nat, px: int, py: int)
    requires Anchors.ValidAnchors(x, y, ms) && n < |ms| && Passed(x, y, ms, n, xi, yi)
    requires xi < |x| && yi < |y| && Covers(x, y, ops, xi, yi) && |marks| == |ops|
    requires Skips(x, y, ms, ops, marks, xi, yi) && px == dxi - best && py == dyi - best
    requires Gap(x, y, xi, yi, nxi, nyi, dxi, dyi) && (nxi == xi && nyi == yi ==> dxi > nxi)
    requires dxi < |x| && dyi < |y| ==> x[dxi] != y[dyi]
    requires nxi <= ms[n].x <= dxi && ms[n].y <= dyi && ms[n].x - nxi == ms[n].y - nyi
    requires ms[n].x < |x| ==> ms[n].x < dxi
    requires best == 0 || (best < LastKeep(ops) && (nxi == xi || nyi == yi))
    requires best == 0 || (nyi == yi && Slidable(x, xi, nxi, best)) || (nxi == xi && Slidable(y, yi, nyi, best))
    requires |marks'| == |ops'| && Extends(ShrinkLast(ops, best), marks, ops', marks') && marks'[|ops'| - 1]
    requires EmitShape(x, y, ShrinkLast(ops, best), ops', marks', xi - best, yi - best, nxi - best, nyi - best)
    requires 0 <= ops'[|ops'| - 1].del <= nxi - xi && 0 <= ops'[|ops'| - 1].add <= nyi - yi
    requires ops'[|ops'| - 1].keep == dxi - nxi
    ensures Skips(x, y, ms, ops', marks', px, py)
  {
    SkipsBefore(ms, ops, marks, ShrinkLast(ops, best), ops', marks', best);
    if |ops| > 0 && Balanced(ops'[|ops| - 1]) {
      SkipsShrunk(x, y, ms, ops, marks, ops', marks', xi, yi, nxi, nyi, dxi, dyi, best);
    }
    SkipsRuns(x, y, ms, n, ShrinkLast(ops, best), ops', marks', xi, yi, nxi, nyi, best);
    HashedJoin(ms, ops', marks', |ops|);
    SkipsFinal(x, y, ms, n, ops', marks', xi, yi, nxi, nyi, dxi, dyi, best, px, py);
  }

  /** HashedBy, put together from the old ops, the shortened last one and the new ones. */
  lemma HashedJoin(ms: seq<Anchors.Pair>, ops: seq<Op>, marks: seq<bool>, m: nat)
    requires |marks| == |ops| && m < |ops|
    requires forall k :: 0 <= k < m - 1 && Balanced(ops[k]) ==> (marks[k] <==> Anchored(ms, ops, k))
    requires m > 0 && Balanced(ops[m - 1]) ==> marks[m - 1] && Anchored(ms, ops, m - 1)
    requires forall k :: m <= k < |ops| - 1 && Balanced(ops[k]) ==> !marks[k] && !Anchored(ms, ops, k)
    ensures HashedBy(ms, ops, marks)
  {
  }

  /** The block's final op is hashed and, when balanced, anchored unless the walk is done. */
  lemma SkipsFinal(x: seq<string>, y: seq<string>, ms: seq<Anchors.Pair>, n: nat, ops': seq<Op>, marks': seq<bool>,
                   xi: nat, yi: nat, nxi: nat, nyi: nat, dxi: nat, dyi: nat, best: nat, px: int, py: int)
    requires Anchors.ValidAnchors(x, y, ms) && n < |ms| && px == dxi - best && py == dyi - best
    requires Gap(x, y, xi, yi, nxi, nyi, dxi, dyi)
    requires dxi < |x| && dyi < |y| ==> x[dxi] != y[dyi]
    requires nxi <= ms[n].x <= dxi && ms[n].y <= dyi && ms[n].x - nxi == ms[n].y - nyi
    requires ms[n].x < |x| ==> ms[n].x < dxi
    requires best == 0 || nxi == xi || nyi == yi
    requires |marks'| == |ops'| > 0 && marks'[|ops'| - 1]
    requires KeepX(ops', |ops'| - 1) == nxi - best && KeepY(ops', |ops'| - 1) == nyi - best
    requires 0 <= ops'[|ops'| - 1].del <= nxi - xi && 0 <= ops'[|ops'| - 1].add <= nyi - yi
    requires ops'[|ops'| - 1].keep == dxi - nxi
    ensures LastSkips(x, y, ms, ops', marks', px, py)
  {
    if Balanced(ops'[|ops'| - 1]) {
      assert best == 0;
      FinalAnchored(x, y, ms, n, ops', xi, yi, nxi, nyi, dxi, dyi);
    }
  }

  /** The ops before the last one of the walk so far keep their marks and anchors. */
  lemma SkipsBefore(ms: seq<Anchors.Pair>, ops: seq<Op>, marks: seq<bool>, r: seq<Op>, ops': seq<Op>,
                    marks': seq<bool>, best: nat)
    requires |marks| == |ops| && HashedBy(ms, ops, marks)
    requires r == ShrinkLast(ops, best) && |marks'| == |ops'| && Extends(r, marks, ops', marks')
    ensures forall k :: 0 <= k < |ops| - 1 && Balanced(ops'[k]) ==> (marks'[k] <==> Anchored(ms, ops', k))
  {
    forall k | 0 <= k < |ops| - 1 && Balanced(ops'[k])
      ensures marks'[k] <==> Anchored(ms, ops', k)
    {
      assert ops'[..|r|] == r;
      assert ops'[..k + 1] == r[..|r| - 1][..k + 1] == ops[..k + 1];
      KeepAgree(ops', ops, k);
      assert marks'[k] == marks'[..|marks|][k];
    }
  }

  /** The last op of the walk so far, its Keep shortened by the slide, stays hashed and anchored. */
  lemma SkipsShrunk(x: seq<string>, y: seq<string>, ms: seq<Anchors.Pair>,
                    ops: seq<Op>, marks: seq<bool>, ops': seq<Op>, marks': seq<bool>,
                    xi: nat, yi: nat, nxi: nat, nyi: nat, dxi: nat, dyi: nat, best: nat)
    requires Anchors.ValidAnchors(x, y, ms)
    requires xi < |x| && yi < |y| && Covers(x, y, ops, xi, yi) && |marks| == |ops|
    requires Skips(x, y, ms, ops, marks, xi, yi)
    requires Gap(x, y, xi, yi, nxi, nyi, dxi, dyi) && (nxi == xi && nyi == yi ==> dxi > nxi)
    requires best == 0 || (best < LastKeep(ops) && (nxi == xi || nyi == yi))
    requires best == 0 || (nyi == yi && Slidable(x, xi, nxi, best)) || (nxi == xi && Slidable(y, yi, nyi, best))
    requires |marks'| == |ops'| && Extends(ShrinkLast(ops, best), marks, ops', marks')
    requires |ops| > 0 && Balanced(ops'[|ops| - 1])
    ensures marks'[|ops| - 1] && Anchored(ms, ops', |ops| - 1)
  {
    var r := ShrinkLast(ops, best);
    var k0 := |ops| - 1;
    assert ops'[..|r|] == r;
    assert ops'[k0] == r[k0] && marks'[k0] == marks'[..|marks|][k0];
    if dxi > nxi {
      GapAt(x, y, xi, yi, nxi, nyi, dxi, dyi, nxi);
    }
    ShrunkAnchored(x, y, ms, ops, xi, yi, nxi, nyi, best);
    KeepAgree(ops', r, k0);
  }

  /** The block's sub-split runs that delete are unhashed and reached by no anchor. */
  lemma SkipsRuns(x: seq<string>, y: seq<string>, ms: seq<Anchors.Pair>, n: nat, r: seq<Op>,
                  ops': seq<Op>, marks': seq<bool>, xi: nat, yi: nat, nxi: nat, nyi: nat, best: nat)
    requires Anchors.ValidAnchors(x, y, ms) && n < |ms| && Passed(x, y, ms, n, xi, yi) && nxi <= ms[n].x
    requires best == 0 || nxi == xi || nyi == yi
    requires |marks'| == |ops'| && EmitShape(x, y, r, ops', marks', xi - best, yi - best, nxi - best, nyi - best)
    ensures forall k :: |r| <= k < |ops'| - 1 && Balanced(ops'[k]) ==> !marks'[k] && !Anchored(ms, ops', k)
  {
    forall k | |r| <= k < |ops'| - 1 && Balanced(ops'[k])
      ensures !marks'[k] && !Anchored(ms, ops', k)
    {
      assert RunAt(x, y, ops', marks', k, xi - best, yi - best, nxi - best, nyi - best);
      assert best == 0;
      RunsUnanchored(x, y, ms, n, ops', marks', k, xi, yi, nxi, nyi);
    }
  }

  /** The common lines at the top, as the first op when there are any. */
  method CommonTop(x: seq<string>, y: seq<string>, ms: seq<Anchors.Pair>)
      returns (ops: seq<Op>, ghost marks: seq<bool>, xi: nat, yi: nat, w: string)
    requires Anchors.ValidAnchors(x, y, ms)
    ensures WalkState(x, y, ms, ops, marks, xi, yi, w)
    ensures xi == yi && x[..xi] == y[..yi]
    ensures xi < |x| && yi < |y| ==> x[xi] != y[yi]
    ensures Skips(x, y, ms, ops, marks, xi, yi)
    ensures KeepsBehind(ms, ops, xi, yi)
  {
    var k := RunWithin(x, y, 0, 0, |x|, |y|);
    assert x[..k] == x[0..k] && y[..k] == y[0..k];
    xi, yi := k, k;
    ops, marks, w := [], [], "";
    assert Covers(x, y, ops, 0, 0);
    if k > 0 {
      KeepFirst(x, y, k);
      ops, marks := [Op(0, 0, k)], [false];
    }
    TopKeeps(x, y, ms, k);
  }

  /** The anchors inside the common top lie on its run: a unique line pairs with itself there. */
  lemma TopKeeps(x: seq<string>, y: seq<string>, ms: seq<Anchors.Pair>, k: nat)
    requires Anchors.ValidAnchors(x, y, ms) && k <= |x| && k <= |y| && x[..k] == y[..k]
    ensures KeepsBehind(ms, if k > 0 then [Op(0, 0, k)] else [], k, k)
  {
    var ops: seq<Op> := if k > 0 then [Op(0, 0, k)] else [];
    forall j | 0 <= j < |ms| - 1 && (ms[j].x < k || ms[j].y < k)
      ensures Kept(ms[j], ops)
    {
      var a := ms[j];
      if a.x < k {
        assert x[a.x] == x[..k][a.x] == y[..k][a.x] == y[a.x];
        PairedX(x, y, ms, j, a.x);
      } else {
        assert x[a.y] == x[..k][a.y] == y[..k][a.y] == y[a.y];
        PairedY(x, y, ms, j, a.y);
      }
      assert ops[..0] == [];
      assert OnRun(a, KeepX(ops, 0), KeepY(ops, 0), ops[0].keep);
    }
  }

  /** The op keeping the first k lines, equal on both sides, records nothing. */
  lemma KeepFirst(x: seq<string>, y: seq<string>, k: nat)
    requires k <= |x| && k <= |y| && x[..k] == y[..k]
    ensures Covers(x, y, [Op(0, 0, k)], k, k) && Records(x, y, [Op(0, 0, k)], [false], k, k) == ""
  {
    var ops: seq<Op> := [Op(0, 0, k)];
    assert ops[..0] == [];
    assert x[k - k..k] == x[..k] && y[k - k..k] == y[..k];
  }

  /** Drop the anchors the walk has passed: those above (xi, yi) on either side. */
  method SkipAnchors(x: seq<string>, y: seq<string>, ms: seq<Anchors.Pair>, xi: nat, yi: nat)
      returns (ms': seq<Anchors.Pair>)
    requires Anchors.ValidAnchors(x, y, ms) && xi <= |x| && yi <= |y|
    ensures Anchors.ValidAnchors(x, y, ms') && ms'[0].x >= xi && ms'[0].y >= yi
    ensures |ms'| <= |ms| && ms' == ms[|ms| - |ms'|..]
    ensures forall j :: 0 <= j < |ms| - |ms'| ==> ms[j].x < xi || ms[j].y < yi
  {
    ms' := ms;
    while ms'[0].x < xi || ms'[0].y < yi
      invariant Anchors.ValidAnchors(x, y, ms') && |ms'| <= |ms| && ms' == ms[|ms| - |ms'|..]
      invariant forall j :: 0 <= j < |ms| - |ms'| ==> ms[j].x < xi || ms[j].y < yi
      decreases |ms'|
    {
      Anchors.DropFirst(x, y, ms');
      ms' := ms'[1..];
    }
  }

  /**
   * The walk of Compute over two different sides: the common top, one block
   * per anchor still ahead, and the change left at the bottom.
   */
  method Walk(x: seq<string>, y: seq<string>)
      returns (ops: seq<Op>, ghost marks: seq<bool>, w: string, ghost anchors: seq<Anchors.Pair>)
    ensures Script(x, y, ops) && |marks| == |ops|
    ensures w == Records(x, y, ops, marks, |x|, |y|)
    ensures HashMarks(ops, marks)
    ensures x != y ==> |ops| > 0 && marks[|ops| - 1]
    ensures Anchors.ValidAnchors(x, y, anchors)
    ensures forall other :: Anchors.ValidAnchors(x, y, other) ==> |other| <= |anchors|
    ensures HashedBy(anchors, ops, marks)
    ensures KeepsAnchors(anchors, ops)
  {
    var ms := Anchors.Tgs(x, y);
    anchors := ms;
    var xi, yi;
    ops, marks, xi, yi, w := CommonTop(x, y, ms);
    assert ms == anchors[|anchors| - |ms|..];
    CoversTail(x, y, ops, xi, yi);
    ops, marks, xi, yi, w := Blocks(x, y, anchors, ms, ops, marks, xi, yi, w);
    ghost var ops0, marks0 := ops, marks;
    ops, marks, w := Close(x, y, ops, marks, xi, yi, w);
    ClosedMarked(x, y, ops0, marks0, xi, yi, ops, marks);
    CloseSkips(x, y, anchors, ops0, marks0, ops, marks, xi, yi);
    assert ops[..|ops0|] == ops0;
    CloseKeeps(x, y, anchors, ops0, ops, xi, yi);
  }

  /** Once one side is used up, every anchor but the sentinel is behind the walk, so each is kept. */
  lemma CloseKeeps(x: seq<string>, y: seq<string>, all: seq<Anchors.Pair>, ops: seq<Op>, ops': seq<Op>,
                   xi: int, yi: int)
    requires Anchors.ValidAnchors(x, y, all) && KeepsBehind(all, ops, xi, yi)
    requires xi == |x| || yi == |y|
    requires |ops'| >= |ops| && ops'[..|ops|] == ops
    ensures KeepsAnchors(all, ops')
  {
    forall j | 0 <= j < |all| - 1
      ensures Kept(all[j], ops')
    {
      var k :| 0 <= k < |ops| && OnRun(all[j], KeepX(ops, k), KeepY(ops, k), ops[k].keep);
      assert ops'[..k + 1] == ops[..k + 1];
      KeptPrefix(all[j], ops, ops', k);
    }
  }

  /** The main loop of Compute: one block per anchor still ahead, until one side is used up. */
  method Blocks(x: seq<string>, y: seq<string>, ghost all: seq<Anchors.Pair>, ms: seq<Anchors.Pair>,
                ops: seq<Op>, ghost marks: seq<bool>, xi: nat, yi: nat, w: string)
      returns (ops': seq<Op>, ghost marks': seq<bool>, xi': nat, yi': nat, w': string)
    requires WalkState(x, y, ms, ops, marks, xi, yi, w) && Tracks(x, y, all, ms, ops, marks, xi, yi)
    requires KeepsBehind(all, ops, xi, yi)
    requires xi <= |x| && yi <= |y| && Start(ops, xi, yi) <= |x| + |y|
    requires (|ops| > 0 && marks[|ops| - 1]) || (xi == yi && x[..xi] == y[..yi])
    ensures Covers(x, y, ops', xi', yi') && |marks'| == |ops'| && w' == Records(x, y, ops', marks', xi', yi')
    ensures HashMarks(ops', marks') && Skips(x, y, all, ops', marks', xi', yi') && KeepsBehind(all, ops', xi', yi')
    ensures xi' <= |x| && yi' <= |y| && (xi' == |x| || yi' == |y|)
    ensures (|ops'| > 0 && marks'[|ops'| - 1]) || (xi' == yi' && x[..xi'] == y[..yi'])
  {
    var ams := ms;
    ops', marks', xi', yi', w' := ops, marks, xi, yi, w;
    while xi' < |x| && yi' < |y|
      invariant WalkState(x, y, ams, ops', marks', xi', yi', w')
      invariant Tracks(x, y, all, ams, ops', marks', xi', yi') && KeepsBehind(all, ops', xi', yi')
      invariant xi' <= |x| && yi' <= |y| && Start(ops', xi', yi') <= |x| + |y|
      invariant (|ops'| > 0 && marks'[|ops'| - 1]) || (xi' == yi' && x[..xi'] == y[..yi'])
      decreases |x| + |y| - Start(ops', xi', yi'), |x| + |y| - xi' - yi'
    {
      ams, ops', marks', xi', yi', w' := Advance(x, y, all, ams, ops', marks', xi', yi', w');
    }
  }

  /** One turn of the walk: drop the anchors it has passed, then emit the block up to the next. */
  method Advance(x: seq<string>, y: seq<string>, ghost all: seq<Anchors.Pair>, ms: seq<Anchors.Pair>,
                 ops: seq<Op>, ghost marks: seq<bool>, xi: nat, yi: nat, w: string)
      returns (ms': seq<Anchors.Pair>, ops': seq<Op>, ghost marks': seq<bool>, xi': nat, yi': nat, w': string)
    requires xi < |x| && yi < |y|
    requires WalkState(x, y, ms, ops, marks, xi, yi, w)
    requires Tracks(x, y, all, ms, ops, marks, xi, yi) && KeepsBehind(all, ops, xi, yi)
    ensures WalkState(x, y, ms', ops', marks', xi', yi', w')
    ensures Tracks(x, y, all, ms', ops', marks', xi', yi') && KeepsBehind(all, ops', xi', yi')
    ensures xi' <= |x| && yi' <= |y| && |ops'| > 0 && marks'[|ops'| - 1]
    ensures Start(ops', xi', yi') > Start(ops, xi, yi)
         || (Start(ops', xi', yi') == Start(ops, xi, yi) && xi' + yi' > xi + yi)
  {
    ms' := SkipAnchors(x, y, ms, xi, yi);
    SkipPassed(x, y, all, ms, ms', xi, yi);
    ops', marks', xi', yi', w' := Block(x, y, all, ms', ops, marks, xi, yi, w);
    CoversTail(x, y, ops', xi', yi');
  }

  /** After Close, the last op is hashed unless the two sides are equal. */
  lemma ClosedMarked(x: seq<string>, y: seq<string>, ops: seq<Op>, marks: seq<bool>, xi: nat, yi: nat,
                     ops': seq<Op>, marks': seq<bool>)
    requires xi <= |x| && yi <= |y| && (xi == |x| || yi == |y|) && |marks| == |ops| && |marks'| == |ops'|
    requires (|ops| > 0 && marks[|ops| - 1]) || (xi == yi && x[..xi] == y[..yi])
    requires xi < |x| || yi < |y| ==> |ops'| > 0 && marks'[|ops'| - 1]
    requires xi == |x| && yi == |y| ==> ops' == ops && marks' == marks
    ensures x != y ==> |ops'| > 0 && marks'[|ops'| - 1]
  {
    if xi == |x| && yi == |y| && !(|ops| > 0 && marks[|ops| - 1]) {
      assert x == x[..xi] && y == y[..yi];
    }
  }

  /** After the last block: whatever is left on either side is one change. */
  method Close(x: seq<string>, y: seq<string>, ops: seq<Op>, ghost marks: seq<bool>, xi: nat, yi: nat, w: string)
      returns (ops': seq<Op>, ghost marks': seq<bool>, w': string)
    requires Covers(x, y, ops, xi, yi) && |marks| == |ops| && w == Records(x, y, ops, marks, xi, yi)
    requires xi <= |x| && yi <= |y| && (xi == |x| || yi == |y|)
    ensures Script(x, y, ops') && |marks'| == |ops'| && w' == Records(x, y, ops', marks', |x|, |y|)
    ensures HashMarks(ops, marks) ==> HashMarks(ops', marks')
    ensures xi < |x| || yi < |y| ==> |ops'| > 0 && marks'[|ops'| - 1]
    ensures xi == |x| && yi == |y| ==> ops' == ops && marks' == marks
    ensures xi < |x| || yi < |y| ==> |ops'| == |ops| + 1 && ops'[..|ops|] == ops && marks'[..|marks|] == marks
  {
    ops', marks', w' := ops, marks, w;
    if xi < |x| || yi < |y| {
      EndGap(x, y, xi, yi);
      ops', marks', w' := Emit(x, y, ops, marks, xi, yi, |x|, |y|, |x|, |y|, w);
      NoRuns(x, y, ops, ops', marks', xi, yi);
    }
  }

  /** A block with one side empty has no sub-split runs. */
  lemma NoRuns(x: seq<string>, y: seq<string>, ops: seq<Op>, ops': seq<Op>, marks': seq<bool>, xi: int, yi: int)
    requires |marks'| == |ops'| && EmitShape(x, y, ops, ops', marks', xi, yi, |x|, |y|)
    requires xi == |x| || yi == |y|
    ensures |ops'| == |ops| + 1
  {
    if |ops'| > |ops| + 1 {
      RunNeedsRoom(x, y, ops', marks', |ops|, xi, yi, |x|, |y|);
      assert false;
    }
  }

  /** A sub-split run needs lines on both sides of its block. */
  lemma RunNeedsRoom(x: seq<string>, y: seq<string>, ops: seq<Op>, marks: seq<bool>, k: nat,
                     xi: int, yi: int, nxi: int, nyi: int)
    requires k < |ops| == |marks| && RunAt(x, y, ops, marks, k, xi, yi, nxi, nyi)
    ensures xi < nxi && yi < nyi
  {
  }

  /** Close keeps HashedBy: the op it appends is last, and the one before it is anchored. */
  lemma CloseSkips(x: seq<string>, y: seq<string>, all: seq<Anchors.Pair>, ops: seq<Op>, marks: seq<bool>,
                   ops': seq<Op>, marks': seq<bool>, xi: int, yi: int)
    requires |marks| == |ops| && |marks'| == |ops'| && Skips(x, y, all, ops, marks, xi, yi)
    requires xi <= |x| && yi <= |y|
    requires xi == |x| && yi == |y| ==> ops' == ops && marks' == marks
    requires xi < |x| || yi < |y| ==> |ops'| == |ops| + 1 && ops'[..|ops|] == ops && marks'[..|marks|] == marks
    ensures HashedBy(all, ops', marks')
  {
    if xi < |x| || yi < |y| {
      forall k | 0 <= k < |ops'| - 1 && Balanced(ops'[k])
        ensures marks'[k] <==> Anchored(all, ops', k)
      {
        assert ops'[..k + 1] == ops'[..|ops|][..k + 1] == ops[..k + 1];
        KeepAgree(ops', ops, k);
        assert marks'[k] == marks'[..|marks|][k];

      }
    }
  }

  /** The rest of both sides is one change block with no common lines after it. */
  lemma EndGap(x: seq<string>, y: seq<string>, xi: nat, yi: nat)
    requires xi <= |x| && yi <= |y|
    ensures Gap(x, y, xi, yi, |x|, |y|, |x|, |y|)
  {
    assert x[|x|..|x|] == [] == y[|y|..|y|];
  }

  /**
   * andiff.Compute: the diff of two texts. The filter rm only changes the
   * lines compared and hashed; LT and RT are always the unfiltered lines.
   * The result is an edit script between the filtered lines, the single
   * Keep op exactly when they are equal, and its hash is 0 for equal sides
   * and otherwise the FNV-1 sum of the records of the ops marked in marks.
   * Those are the ops HashMask picks given the anchors of the filtered
   * lines: every op but the balanced ones before the last whose common run
   * holds no anchor.
   */
  method Compute(lt: string, rt: string, rm: Option<Matcher>)
      returns (d: Diff, ghost marks: seq<bool>, ghost anchors: seq<Anchors.Pair>)
    ensures d.lt == SplitLines(lt) && d.rt == SplitLines(rt)
    ensures Script(Filter(d.lt, rm), Filter(d.rt, rm), d.ops)
    ensures Filter(d.lt, rm) == Filter(d.rt, rm) <==> d.ops == [Op(0, 0, |d.lt|)]
    ensures Filter(d.lt, rm) == Filter(d.rt, rm) ==> d.hash == 0
    ensures Filter(d.lt, rm) != Filter(d.rt, rm) ==>
              |marks| == |d.ops| && d.hash == Fnv.Sum(Records(Filter(d.lt, rm), Filter(d.rt, rm), d.ops, marks, |d.lt|, |d.rt|))
    ensures Filter(d.lt, rm) != Filter(d.rt, rm) ==> HashMarks(d.ops, marks) && marks[|marks| - 1]
    ensures Filter(d.lt, rm) != Filter(d.rt, rm) ==>
              && Anchors.ValidAnchors(Filter(d.lt, rm), Filter(d.rt, rm), anchors)
              && (forall other :: Anchors.ValidAnchors(Filter(d.lt, rm), Filter(d.rt, rm), other) ==> |other| <= |anchors|)
              && d.hash == Fnv.Sum(Records(Filter(d.lt, rm), Filter(d.rt, rm), d.ops, HashMask(anchors, d.ops),
                                           |d.lt|, |d.rt|))
    ensures KeepsAnchors(anchors, d.ops)
  {
    var origx, origy := SplitLines(lt), SplitLines(rt);
    var x, y := Filter(origx, rm), Filter(origy, rm);
    Text.JoinInjective(x, y, '\n');
    if Text.Join(x, '\n') == Text.Join(y, '\n') {
      ScriptSame(x);
      return Diff(origx, origy, [Op(0, 0, |x|)], 0), [true], [Anchors.Pair(|x|, |y|)];
    }
    var ops, w;
    ops, marks, w, anchors := Walk(x, y);
    OneKeep(x, y, ops);
    CoversNonneg(x, y, ops, |x|, |y|);
    MaskAgrees(anchors, ops, marks);
    RecordsAgree(x, y, ops, marks, HashMask(anchors, ops), |origx|, |origy|);
    d := Diff(origx, origy, ops, Fnv.Sum(w));
  }

  /**
   * Where it matters, the walk's marks are HashMask: on every op that
   * deletes or adds a line.
   */
  lemma MaskAgrees(ms: seq<Anchors.Pair>, ops: seq<Op>, marks: seq<bool>)
    requires HashMarks(ops, marks) && HashedBy(ms, ops, marks) && |ops| > 0 && marks[|ops| - 1]
    requires forall k :: 0 <= k < |ops| ==> ops[k].add >= 0
    ensures forall k :: 0 <= k < |ops| && (ops[k].del != 0 || ops[k].add != 0) ==> marks[k] == HashMask(ms, ops)[k]
  {
    forall k | 0 <= k < |ops| && (ops[k].del != 0 || ops[k].add != 0)
      ensures marks[k] == HashMask(ms, ops)[k]
    {
      if k < |ops| - 1 && !marks[k] {
        assert Balanced(ops[k]);
      }
    }
  }

  /** Every op of a script deletes and adds no negative number of lines. */
  lemma {:induction false} CoversNonneg(x: seq<string>, y: seq<string>, ops: seq<Op>, xi: int, yi: int)
    requires Covers(x, y, ops, xi, yi)
    ensures forall k :: 0 <= k < |ops| ==> ops[k].del >= 0 && ops[k].add >= 0
    decreases |ops|
  {
    if |ops| > 0 {
      var o := ops[|ops| - 1];
      CoversNonneg(x, y, ops[..|ops| - 1], xi - o.del - o.keep, yi - o.add - o.keep);
      forall k | 0 <= k < |ops| - 1
        ensures ops[k].del >= 0 && ops[k].add >= 0
      {
        assert ops[k] == ops[..|ops| - 1][k];
      }
    }
  }

  /** The single Keep op is a script only between equal sides. */
  lemma OneKeep(x: seq<string>, y: seq<string>, ops: seq<Op>)
    requires Script(x, y, ops)
    ensures ops == [Op(0, 0, |x|)] ==> x == y
  {
    if ops == [Op(0, 0, |x|)] {
      ScriptNoEdits(x, y, ops);
    }
  }

  // ---------------------------------------------------------------------
  // The sub-split as andiff.go writes it.

  /**
   * The run scan of the sub-split as written: it compares x[i + same] with
   * y[j + same] with no bound at all. None where it would index past the
   * end of x or y, which panics in Go.
   */
  function RunAsWritten(x: seq<string>, y: seq<string>, i: nat, j: nat): (r: Option<nat>)
    ensures r.Some? ==> i + r.value < |x| && j + r.value < |y|
    ensures r.Some? ==> x[i..i + r.value] == y[j..j + r.value] && x[i + r.value] != y[j + r.value]
    decreases |x| - i
  {
    if i >= |x| || j >= |y| then None
    else if x[i] != y[j] then Some(0)
    else
      match RunAsWritten(x, y, i + 1, j + 1)
      case None => None
      case Some(k) =>
        assert x[i..i + k + 1] == [x[i]] + x[i + 1..i + 1 + k];
        assert y[j..j + k + 1] == [y[j]] + y[j + 1..j + 1 + k];
        Some(k + 1)
  }

  /**
   * The sub-split loop as written, from the scan position (txi, tyi) with
   * the change starting at (xi, yi): the ops it appends and where the
   * change it leaves starts, or None when a scan panics.
   */
  function SubSplitAsWritten(x: seq<string>, y: seq<string>, ops: seq<Op>, xi: int, yi: int,
                             txi: int, tyi: int, nxi: int, nyi: int): Option<(seq<Op>, int, int)>
    requires 0 <= txi && 0 <= tyi
    decreases nxi - txi
  {
    if !(txi < nxi && tyi < nyi) then Some((ops, xi, yi))
    else
      match RunAsWritten(x, y, txi, tyi)
      case None => None
      case Some(same) =>
        if same > 0 then
          SubSplitAsWritten(x, y, ops + [Op(txi - xi, tyi - yi, same)], txi + same, tyi + same,
                            txi + same + 1, tyi + same + 1, nxi, nyi)
        else SubSplitAsWritten(x, y, ops, xi, yi, txi + 1, tyi + 1, nxi, nyi)
  }

  /** A scan that finds no common run moves on by one line. */
  lemma AsWrittenSkip(x: seq<string>, y: seq<string>, ops: seq<Op>, xi: int, yi: int,
                      txi: nat, tyi: nat, nxi: int, nyi: int)
    requires txi < nxi && tyi < nyi && RunAsWritten(x, y, txi, tyi) == Some(0)
    ensures SubSplitAsWritten(x, y, ops, xi, yi, txi, tyi, nxi, nyi)
         == SubSplitAsWritten(x, y, ops, xi, yi, txi + 1, tyi + 1, nxi, nyi)
  {
  }

  /** A scan that finds a run emits it and moves past it and one more line. */
  lemma AsWrittenSplit(x: seq<string>, y: seq<string>, ops: seq<Op>, xi: int, yi: int,
                       txi: nat, tyi: nat, nxi: int, nyi: int, same: nat)
    requires txi < nxi && tyi < nyi && RunAsWritten(x, y, txi, tyi) == Some(same) && same > 0
    ensures SubSplitAsWritten(x, y, ops, xi, yi, txi, tyi, nxi, nyi)
         == SubSplitAsWritten(x, y, ops + [Op(txi - xi, tyi - yi, same)], txi + same, tyi + same,
                              txi + same + 1, tyi + same + 1, nxi, nyi)
  {
  }

  /** The ops the block x[xi..nxi] / y[yi..nyi] before the common run up to (dxi, dyi) gets as written. */
  function BlockOpsAsWritten(x: seq<string>, y: seq<string>, xi: int, yi: int, nxi: int, nyi: int, dxi: int):
    Option<seq<Op>>
    requires 0 <= xi && 0 <= yi
  {
    match SubSplitAsWritten(x, y, [], xi, yi, xi, yi, nxi, nyi)
    case None => None
    case Some((ops, sxi, syi)) => Some(ops + [Op(nxi - sxi, nyi - syi, dxi - nxi)])
  }

  /** Left side of the first example: no line of it is unique on both sides. */
  function PanicLeft(): seq<string> { ["p", "q", "a"] }
  function PanicRight(): seq<string> { ["r", "q", "a", "q", "s", "a"] }

  /**
   * On the first example the only valid anchor list is the sentinel, the
   * first block is x[0..2] / y[0..5] before the common line "a", and the
   * sub-split as written indexes x[3], past the end of x.
   */
  lemma SubSplitPanics()
    ensures forall ms :: Anchors.ValidAnchors(PanicLeft(), PanicRight(), ms) ==> ms == [Anchors.Pair(3, 6)]
    ensures Gap(PanicLeft(), PanicRight(), 0, 0, 2, 5, 3, 6) && PanicLeft()[1] != PanicRight()[4]
    ensures PanicLeft()[0] != PanicRight()[0]
    ensures SubSplitAsWritten(PanicLeft(), PanicRight(), [], 0, 0, 0, 0, 2, 5).None?
  {
    var x, y := PanicLeft(), PanicRight();
    Anchors.CountTwo("q", y, 1, 3);
    Anchors.CountTwo("a", y, 2, 5);
    assert forall i :: 0 <= i < |x| ==> !Anchors.Candidate(x[i], x, y) by {
      Anchors.CountNone("p", y);
    }
    forall ms: seq<Anchors.Pair> | Anchors.ValidAnchors(x, y, ms)
      ensures ms == [Anchors.Pair(3, 6)]
    {
      Anchors.OnlySentinel(x, y, ms);
    }
    assert x[2..3] == y[5..6];
    assert RunAsWritten(x, y, 0, 0) == Some(0);
    assert RunAsWritten(x, y, 1, 1).None?;
  }

  /** Left side of the second example: "b" is its one anchor. */
  function OverrunLeft(): seq<string> { ["p", "q", "a", "b"] }
  function OverrunRight(): seq<string> { ["r", "q", "a", "q", "s", "a", "b"] }

  /**
   * On the second example the anchors are "b" and the sentinel, and the
   * block before "b" is x[0..2] / y[0..5], followed by the common run
   * x[2..4] / y[5..7].
   */
  lemma OverrunBlock()
    ensures Anchors.ValidAnchors(OverrunLeft(), OverrunRight(), [Anchors.Pair(3, 6), Anchors.Pair(4, 7)])
    ensures Gap(OverrunLeft(), OverrunRight(), 0, 0, 2, 5, 4, 7) && OverrunLeft()[1] != OverrunRight()[4]
  {
    OverrunAnchor();
    assert OverrunLeft()[2..4] == OverrunRight()[5..7];
  }

  /** The sub-split as written runs on past x[2]: the block's final op deletes -1 lines. */
  lemma SubSplitOverruns(x: seq<string>, y: seq<string>)
    requires x == OverrunLeft() && y == OverrunRight()
    ensures var r := BlockOpsAsWritten(x, y, 0, 0, 2, 5, 4);
            r.Some? && |r.value| == 2 && r.value[0] == Op(1, 1, 2) && r.value[1] == Op(-1, 2, 2)
  {
    OverrunRuns(x, y);
    AsWrittenSkip(x, y, [], 0, 0, 0, 0, 2, 5);
    AsWrittenSplit(x, y, [], 0, 0, 1, 1, 2, 5, 2);
    var first := [] + [Op(1, 1, 2)];
    assert SubSplitAsWritten(x, y, first, 3, 3, 4, 4, 2, 5) == Some((first, 3, 3));
    assert BlockOpsAsWritten(x, y, 0, 0, 2, 5, 4) == Some(first + [Op(-1, 2, 2)]);
  }

  lemma OverrunAnchor()
    ensures Anchors.Candidate("b", OverrunLeft(), OverrunRight())
  {
    Anchors.CountExactlyOne("b", OverrunLeft(), 3);
    Anchors.CountExactlyOne("b", OverrunRight(), 6);
  }

  lemma OverrunRuns(x: seq<string>, y: seq<string>)
    requires x == OverrunLeft() && y == OverrunRight()
    ensures RunAsWritten(x, y, 0, 0) == Some(0)
    ensures RunAsWritten(x, y, 1, 1) == Some(2)
  {
    assert RunAsWritten(x, y, 3, 3) == Some(0);
    assert RunAsWritten(x, y, 2, 2) == Some(1);
  }

  /**
   * The ops of the second example as written are no edit script, while the
   * corrected sub-split's ops for the same block are.
   */
  lemma OverrunScripts()
    ensures !Script(OverrunLeft(), OverrunRight(), [Op(1, 1, 2), Op(-1, 2, 2)])
    ensures Script(OverrunLeft(), OverrunRight(), [Op(1, 1, 1), Op(0, 3, 2)])
  {
    var x, y := OverrunLeft(), OverrunRight();
    var good := [Op(1, 1, 1), Op(0, 3, 2)];
    assert good[..1] == [Op(1, 1, 1)] && good[..1][..0] == [];
    assert x[1..2] == y[1..2];
    assert x[2..4] == y[5..7];
  }

  // ---------------------------------------------------------------------
  // An example: two changes around a unique run

  /**
   * Between a b c d e and a X c d Y the lines a, c and d are unique on
   * both sides; no anchor set holds more than those three and the sentinel.
   */
  lemma ExampleAnchors()
    ensures Anchors.ValidAnchors(["a", "b", "c", "d", "e"], ["a", "X", "c", "d", "Y"],
                                 [Anchors.Pair(0, 0), Anchors.Pair(2, 2), Anchors.Pair(3, 3), Anchors.Pair(5, 5)])
    ensures Script(["a", "b", "c", "d", "e"], ["a", "X", "c", "d", "Y"], [Op(0, 0, 1), Op(1, 1, 2), Op(1, 1, 0)])
  {
    var x: seq<string>, y: seq<string> := ["a", "b", "c", "d", "e"], ["a", "X", "c", "d", "Y"];
    ExampleCounts();
    ExampleScript();
  }

  /** The example's ops: keep a, change b to X, keep c d, change e to Y. */
  lemma ExampleScript()
    ensures Script(["a", "b", "c", "d", "e"], ["a", "X", "c", "d", "Y"], [Op(0, 0, 1), Op(1, 1, 2), Op(1, 1, 0)])
  {
    var x: seq<string>, y: seq<string> := ["a", "b", "c", "d", "e"], ["a", "X", "c", "d", "Y"];
    var ops := [Op(0, 0, 1), Op(1, 1, 2), Op(1, 1, 0)];
    assert ops[..2] == [Op(0, 0, 1), Op(1, 1, 2)] && ops[..2][..1] == [Op(0, 0, 1)] && ops[..2][..1][..0] == [];
    assert x[5..5] == y[5..5];
    assert x[2..4] == y[2..4];
    assert x[0..1] == y[0..1];
    assert Covers(x, y, ops[..2][..1][..0], 0, 0);
    assert Covers(x, y, ops[..2][..1], 1, 1);
    assert Covers(x, y, ops[..2], 4, 4);
  }

  /** How often each line of the example occurs on each side. */
  lemma ExampleCounts()
    ensures var x: seq<string>, y: seq<string> := ["a", "b", "c", "d", "e"], ["a", "X", "c", "d", "Y"];
            && Anchors.Count("a", x) == 1 && Anchors.Count("a", y) == 1
            && Anchors.Count("c", x) == 1 && Anchors.Count("c", y) == 1
            && Anchors.Count("d", x) == 1 && Anchors.Count("d", y) == 1
            && Anchors.Count("b", y) == 0 && Anchors.Count("e", y) == 0
  {
    var x: seq<string>, y: seq<string> := ["a", "b", "c", "d", "e"], ["a", "X", "c", "d", "Y"];
    Anchors.CountExactlyOne("a", x, 0);
    Anchors.CountExactlyOne("a", y, 0);
    Anchors.CountExactlyOne("c", x, 2);
    Anchors.CountExactlyOne("c", y, 2);
    Anchors.CountExactlyOne("d", x, 3);
    Anchors.CountExactlyOne("d", y, 3);
    Anchors.CountNone("b", y);
    Anchors.CountNone("e", y);
  }

  /** Any anchor set of the example as large as the one above pairs a, c and d with themselves. */
  lemma ExampleSecond(other: seq<Anchors.Pair>)
    requires Anchors.ValidAnchors(["a", "b", "c", "d", "e"], ["a", "X", "c", "d", "Y"], other) && |other| >= 4
    ensures other[1] == Anchors.Pair(2, 2)
    ensures other[0] == Anchors.Pair(0, 0) && other[2] == Anchors.Pair(3, 3)
  {
    var x: seq<string>, y: seq<string> := ["a", "b", "c", "d", "e"], ["a", "X", "c", "d", "Y"];
    ExampleCounts();
    forall t | 0 <= t < 3
      ensures other[t].x == 0 || other[t].x == 2 || other[t].x == 3
    {
    }
    assert other[0].x < other[1].x < other[2].x;
    assert other[1].x == 2 && y[other[1].y] == "c";
    assert other[0].x == 0 && y[other[0].y] == "a";
    assert other[2].x == 3 && y[other[2].y] == "d";
  }

  /**
   * Whatever ops a walk of the example returns with a largest anchor set,
   * they keep a, c and d in place: each lies on the common run of some op.
   */
  lemma ExampleKept(ops: seq<Op>, anchors: seq<Anchors.Pair>)
    requires Anchors.ValidAnchors(["a", "b", "c", "d", "e"], ["a", "X", "c", "d", "Y"], anchors)
    requires forall other :: Anchors.ValidAnchors(["a", "b", "c", "d", "e"], ["a", "X", "c", "d", "Y"], other) ==>
               |other| <= |anchors|
    requires KeepsAnchors(anchors, ops)
    ensures Kept(Anchors.Pair(0, 0), ops) && Kept(Anchors.Pair(2, 2), ops) && Kept(Anchors.Pair(3, 3), ops)
  {
    var x: seq<string>, y: seq<string> := ["a", "b", "c", "d", "e"], ["a", "X", "c", "d", "Y"];
    ExampleAnchors();
    ExampleSecond(anchors);
    assert Kept(anchors[0], ops) && Kept(anchors[1], ops) && Kept(anchors[2], ops);
  }

  /**
   * The smallest anchored case, a b c against a x c: whatever ops keep
   * every anchor of a longest anchor list keep a and c in place.
   */
  lemma ExampleKeptAbc(ops: seq<Op>, anchors: seq<Anchors.Pair>)
    requires Anchors.ValidAnchors(["a", "b", "c"], ["a", "x", "c"], anchors)
    requires forall other :: Anchors.ValidAnchors(["a", "b", "c"], ["a", "x", "c"], other) ==> |other| <= |anchors|
    requires KeepsAnchors(anchors, ops)
    ensures Kept(Anchors.Pair(0, 0), ops) && Kept(Anchors.Pair(2, 2), ops)
  {
    ExampleAbcLongest();
    ExampleAbcPairs(anchors);
    assert Kept(anchors[0], ops) && Kept(anchors[1], ops);
  }

  /** In a b c against a x c, a and c with the sentinel are a valid anchor list. */
  lemma ExampleAbcLongest()
    ensures Anchors.ValidAnchors(["a", "b", "c"], ["a", "x", "c"],
                                 [Anchors.Pair(0, 0), Anchors.Pair(2, 2), Anchors.Pair(3, 3)])
  {
    var x: seq<string>, y: seq<string> := ["a", "b", "c"], ["a", "x", "c"];
    Anchors.CountExactlyOne("a", x, 0);
    Anchors.CountExactlyOne("a", y, 0);
    Anchors.CountExactlyOne("c", x, 2);
    Anchors.CountExactlyOne("c", y, 2);
  }

  /** Any valid anchor list of a b c against a x c with three pairs pairs a with a and c with c. */
  lemma ExampleAbcPairs(other: seq<Anchors.Pair>)
    requires Anchors.ValidAnchors(["a", "b", "c"], ["a", "x", "c"], other) && |other| >= 3
    ensures other[0] == Anchors.Pair(0, 0) && other[1] == Anchors.Pair(2, 2)
  {
    var x: seq<string>, y: seq<string> := ["a", "b", "c"], ["a", "x", "c"];
    Anchors.CountNone("b", y);
    assert other[0].x != 1 && other[1].x != 1;
    assert other[0].x < other[1].x;
    assert other[0].x == 0 && y[other[0].y] == "a";
    assert other[1].x == 2 && y[other[1].y] == "c";
  }

  /**
   * With any anchor set as large as the one above, the hash takes in both
   * changes, b/X and e/Y: the op before c d keeps an anchor on its run.
   */
  lemma ExampleHash(other: seq<Anchors.Pair>)
    requires Anchors.ValidAnchors(["a", "b", "c", "d", "e"], ["a", "X", "c", "d", "Y"], other) && |other| >= 4
    ensures Records(["a", "b", "c", "d", "e"], ["a", "X", "c", "d", "Y"], [Op(0, 0, 1), Op(1, 1, 2), Op(1, 1, 0)],
                    HashMask(other, [Op(0, 0, 1), Op(1, 1, 2), Op(1, 1, 0)]), 5, 5)
            == Tagged("\n-", ["b"]) + Tagged("\n+", ["X"]) + Tagged("\n-", ["e"]) + Tagged("\n+", ["Y"])
  {
    var ops := [Op(0, 0, 1), Op(1, 1, 2), Op(1, 1, 0)];
    ExampleSecond(other);
    assert ops[..1] == [Op(0, 0, 1)] && ops[..1][..0] == [];
    assert OnRun(other[1], KeepX(ops, 1), KeepY(ops, 1), ops[1].keep);
    assert HashMask(other, ops) == [true, true, true];
    ExampleRecords();
  }

  /** Hashing every op of the example writes both changes. */
  lemma ExampleRecords()
    ensures Records(["a", "b", "c", "d", "e"], ["a", "X", "c", "d", "Y"], [Op(0, 0, 1), Op(1, 1, 2), Op(1, 1, 0)],
                    [true, true, true], 5, 5)
            == Tagged("\n-", ["b"]) + Tagged("\n+", ["X"]) + Tagged("\n-", ["e"]) + Tagged("\n+", ["Y"])
  {
    RecordsTwoChanges(["a", "b", "c", "d", "e"], ["a", "X", "c", "d", "Y"]);
  }

  /** Keep one line, change one, keep two, change one: both changes are written, in order. */
  lemma RecordsTwoChanges(x: seq<string>, y: seq<string>)
    requires |x| >= 5 && |y| >= 5
    ensures Records(x, y, [Op(0, 0, 1), Op(1, 1, 2), Op(1, 1, 0)], [true, true, true], 5, 5)
         == Tagged("\n-", [x[1]]) + Tagged("\n+", [y[1]]) + Tagged("\n-", [x[4]]) + Tagged("\n+", [y[4]])
  {
    RecordsThird(x, y);
    RecordsKeepChange(x, y);
    PartOne(x, 4);
    PartOne(y, 4);
  }

  /** The records of the three ops are those of the first two followed by the change the third makes. */
  lemma RecordsThird(x: seq<string>, y: seq<string>)
    requires |x| >= 5 && |y| >= 5
    ensures Records(x, y, [Op(0, 0, 1), Op(1, 1, 2), Op(1, 1, 0)], [true, true, true], 5, 5)
         == Records(x, y, [Op(0, 0, 1), Op(1, 1, 2)], [true, true], 4, 4) + Tagged("\n-", Part(x, 4, 1)) + Tagged("\n+", Part(y, 4, 1))
  {
    ExampleOpsThird();
    RecordsPush(x, y, [Op(0, 0, 1), Op(1, 1, 2)], [true, true], Op(1, 1, 0), true, 4, 4, 5, 5);
  }

  /** The example's ops and marks, built one op at a time. */
  lemma ExampleOpsThird()
    ensures [Op(0, 0, 1), Op(1, 1, 2)] + [Op(1, 1, 0)] == [Op(0, 0, 1), Op(1, 1, 2), Op(1, 1, 0)]
    ensures [true, true] + [true] == [true, true, true]
  {
  }

  /** The first two ops of the example write the change of b to X. */
  lemma ExampleRecordsHead()
    ensures Records(["a", "b", "c", "d", "e"], ["a", "X", "c", "d", "Y"], [Op(0, 0, 1), Op(1, 1, 2)], [true, true], 4, 4)
            == Tagged("\n-", ["b"]) + Tagged("\n+", ["X"])
  {
    RecordsKeepChange(["a", "b", "c", "d", "e"], ["a", "X", "c", "d", "Y"]);
  }

  /** A first op that only keeps a line writes nothing. */
  lemma RecordsKeepFirst(x: seq<string>, y: seq<string>)
    requires |x| >= 1 && |y| >= 1
    ensures Records(x, y, [Op(0, 0, 1)], [true], 1, 1) == ""
  {
    RecordsFirstStep(x, y);
    PartEmpty(x, 0);
    PartEmpty(y, 0);
    TaggedNone("\n-");
    TaggedNone("\n+");
  }

  /** The records of the first op: those of no ops, then what it deletes and adds. */
  lemma RecordsFirstStep(x: seq<string>, y: seq<string>)
    ensures Records(x, y, [Op(0, 0, 1)], [true], 1, 1)
         == Records(x, y, [], [], 0, 0) + Tagged("\n-", Part(x, 0, 0)) + Tagged("\n+", Part(y, 0, 0))
  {
    var ops, m := [Op(0, 0, 1)], [true];
    assert ops[..0] == [] && m[..0] == [];
  }

  /** Tagging no lines writes nothing. */
  lemma TaggedNone(tag: string)
    ensures Tagged(tag, []) == ""
  {
  }

  /** Keep one line, then change the next one and keep two: only that change is written. */
  lemma RecordsKeepChange(x: seq<string>, y: seq<string>)
    requires |x| >= 4 && |y| >= 4
    ensures Records(x, y, [Op(0, 0, 1), Op(1, 1, 2)], [true, true], 4, 4) == Tagged("\n-", [x[1]]) + Tagged("\n+", [y[1]])
  {
    RecordsSecond(x, y);
    PartOne(x, 1);
    PartOne(y, 1);
  }

  /** The records of the two ops are the change the second one makes. */
  lemma RecordsSecond(x: seq<string>, y: seq<string>)
    requires |x| >= 4 && |y| >= 4
    ensures Records(x, y, [Op(0, 0, 1), Op(1, 1, 2)], [true, true], 4, 4)
         == Tagged("\n-", Part(x, 1, 1)) + Tagged("\n+", Part(y, 1, 1))
  {
    RecordsSecondStep(x, y);
    RecordsKeepFirst(x, y);
    EmptyThen(Tagged("\n-", Part(x, 1, 1)), Tagged("\n+", Part(y, 1, 1)));
  }

  /** The records of the two ops are those of the first followed by the change the second makes. */
  lemma RecordsSecondStep(x: seq<string>, y: seq<string>)
    requires |x| >= 4 && |y| >= 4
    ensures Records(x, y, [Op(0, 0, 1), Op(1, 1, 2)], [true, true], 4, 4)
         == Records(x, y, [Op(0, 0, 1)], [true], 1, 1) + Tagged("\n-", Part(x, 1, 1)) + Tagged("\n+", Part(y, 1, 1))
  {
    var ops, m := [Op(0, 0, 1), Op(1, 1, 2)], [true, true];
    assert ops[..1] == [Op(0, 0, 1)] && m[..1] == [true];
  }

  /** No lines taken. */
  lemma PartEmpty(ls: seq<string>, lo: nat)
    requires lo <= |ls|
    ensures Part(ls, lo, 0) == []
  {
  }

  /** One line taken. */
  lemma PartOne(ls: seq<string>, lo: nat)
    requires lo < |ls|
    ensures Part(ls, lo, 1) == [ls[lo]]
  {
  }

  /** The empty string in front changes nothing. */
  lemma EmptyThen(a: string, b: string)
    ensures "" + a + b == a + b
  {
  }

  /**
   * The anchors must be as many as there can be: with the sentinel alone,
   * which is valid too, the op before c d would be left out of the hash.
   */
  lemma ExampleSentinelOnly()
    ensures Anchors.ValidAnchors(["a", "b", "c", "d", "e"], ["a", "X", "c", "d", "Y"], [Anchors.Pair(5, 5)])
    ensures !HashMask([Anchors.Pair(5, 5)], [Op(0, 0, 1), Op(1, 1, 2), Op(1, 1, 0)])[1]
  {
    var ops := [Op(0, 0, 1), Op(1, 1, 2), Op(1, 1, 0)];
    assert ops[..1] == [Op(0, 0, 1)] && ops[..1][..0] == [];
    assert KeepX(ops, 1) == 2;
  }
}
