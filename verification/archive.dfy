/**
 * The text archive layout shared by internal/edtextar/textar.go and
 * internal/textar/textar.go: entries are written as
 *
 *     SEP key\nvalue\nSEP key\nvalue ...
 *
 * where SEP is a run of one separator char, long enough that no value
 * holds a line starting with that many separator chars, followed by a
 * space. Parsing reads SEP back from the text up to the first space and
 * then cuts entries at "\n" + SEP. The two packages differ only in the
 * separator char and in how keys are encoded; they build on this module.
 */
module Archive {
  import opened Wrappers
  import opened Text
  import opened KeyValue

  // ---------------------------------------------------------------------
  // Choosing the separator.

  /** The sentinel the scan puts in d after a char that ends a leading run. */
  const Broken: int := -99999999

  /**
   * The scan over one value: d counts the separator chars since the last
   * line start (and turns very negative after any other char), m is the
   * largest count seen.
   */
  function ValueDash(v: string, c: char, d: int, m: int): int
    decreases |v|
  {
    if |v| == 0 then m
    else if v[0] == '\n' then ValueDash(v[1..], c, 0, m)
    else if v[0] == c then ValueDash(v[1..], c, d + 1, if m >= d + 1 then m else d + 1)
    else ValueDash(v[1..], c, Broken, m)
  }

  /** maxdash: the scan over every value in turn. */
  function MaxDash(kvs: seq<KV>, c: char, m: int): int
    decreases |kvs|
  {
    if |kvs| == 0 then m else MaxDash(kvs[1..], c, ValueDash(kvs[0].v, c, 0, m))
  }

  /** The length of the separator run: at least 3, and 2 more than the longest leading run. */
  function SepLength(kvs: seq<KV>, c: char): (n: nat)
    ensures n >= 3
  {
    var m := MaxDash(kvs, c, 0);
    if m + 2 >= 3 then m + 2 else 3
  }

  /** The separator Format writes before every key. */
  function Separator(kvs: seq<KV>, c: char): string {
    Repeat(c, SepLength(kvs, c)) + " "
  }

  /** The first r chars of w are c. */
  predicate Leads(w: string, c: char, r: nat) {
    r <= |w| && forall k :: 0 <= k < r ==> w[k] == c
  }

  /** A line of v (after the newline at j) starts with r copies of c. */
  predicate LineRun(v: string, c: char, j: nat, r: nat) {
    j < |v| && v[j] == '\n' && Leads(v[j + 1..], c, r)
  }

  lemma {:induction false} DashAtLeast(v: string, c: char, d: int, m: int)
    ensures ValueDash(v, c, d, m) >= m
    decreases |v|
  {
    if |v| > 0 {
      if v[0] == '\n' {
        DashAtLeast(v[1..], c, 0, m);
      } else if v[0] == c {
        DashAtLeast(v[1..], c, d + 1, if m >= d + 1 then m else d + 1);
      } else {
        DashAtLeast(v[1..], c, Broken, m);
      }
    }
  }

  /** A leading run continues the count d. */
  lemma {:induction false} DashCountsLead(w: string, c: char, d: int, m: int, r: nat)
    requires c != '\n' && 0 <= d <= m && Leads(w, c, r)
    ensures ValueDash(w, c, d, m) >= d + r
    decreases r
  {
    if r == 0 {
      DashAtLeast(w, c, d, m);
    } else {
      assert w[0] == c;
      var m' := if m >= d + 1 then m else d + 1;
      assert Leads(w[1..], c, r - 1) by {
        forall k | 0 <= k < r - 1
          ensures w[1..][k] == c
        {
          assert w[1..][k] == w[k + 1];
        }
      }
      DashCountsLead(w[1..], c, d + 1, m', r - 1);
    }
  }

  /** The scan sees every run at the start of a line. */
  lemma {:induction false} DashCountsLine(v: string, c: char, d: int, m: int, j: nat, r: nat)
    requires c != '\n' && 0 <= m && LineRun(v, c, j, r)
    ensures ValueDash(v, c, d, m) >= r
    decreases j
  {
    if j == 0 {
      DashCountsLead(v[1..], c, 0, m, r);
    } else {
      var d', m' := if v[0] == '\n' then 0 else if v[0] == c then d + 1 else Broken, if v[0] == c && m < d + 1 then d + 1 else m;
      assert ValueDash(v, c, d, m) == ValueDash(v[1..], c, d', m');
      assert v[1..][j - 1..] == v[j..] && v[1..][j..] == v[j + 1..];
      DashCountsLine(v[1..], c, d', m', j - 1, r);
    }
  }

  lemma {:induction false} MaxDashAtLeast(kvs: seq<KV>, c: char, m: int)
    ensures MaxDash(kvs, c, m) >= m
    decreases |kvs|
  {
    if |kvs| > 0 {
      DashAtLeast(kvs[0].v, c, 0, m);
      MaxDashAtLeast(kvs[1..], c, ValueDash(kvs[0].v, c, 0, m));
    }
  }

  /**
   * maxdash is at least the length of every run of the separator char at
   * the start of a value or of a line inside a value.
   */
  lemma {:induction false} MaxDashCovers(kvs: seq<KV>, c: char, m: int, i: nat, j: nat, r: nat)
    requires c != '\n' && 0 <= m && i < |kvs|
    requires Leads(kvs[i].v, c, r) || LineRun(kvs[i].v, c, j, r)
    ensures MaxDash(kvs, c, m) >= r
    decreases i
  {
    var m' := ValueDash(kvs[0].v, c, 0, m);
    DashAtLeast(kvs[0].v, c, 0, m);
    if i == 0 {
      if Leads(kvs[0].v, c, r) {
        DashCountsLead(kvs[0].v, c, 0, m, r);
      } else {
        DashCountsLine(kvs[0].v, c, 0, m, j, r);
      }
      MaxDashAtLeast(kvs[1..], c, m');
    } else {
      assert kvs[1..][i - 1] == kvs[i];
      MaxDashCovers(kvs[1..], c, m', i - 1, j, r);
    }
  }

  /** No line of any value starts with L separator chars. */
  predicate Clear(kvs: seq<KV>, c: char, L: nat) {
    forall i, j :: 0 <= i < |kvs| && 0 <= j < |kvs[i].v| ==> !LineRun(kvs[i].v, c, j, L)
  }

  lemma SeparatorClear(kvs: seq<KV>, c: char)
    requires c != '\n'
    ensures Clear(kvs, c, SepLength(kvs, c))
  {
    forall i, j | 0 <= i < |kvs| && 0 <= j < |kvs[i].v|
      ensures !LineRun(kvs[i].v, c, j, SepLength(kvs, c))
    {
      if LineRun(kvs[i].v, c, j, SepLength(kvs, c)) {
        MaxDashCovers(kvs, c, 0, i, j, SepLength(kvs, c));
      }
    }
  }

  /** "\n" + SEP: what Parse cuts values at. */
  function Cutter(c: char, L: nat): string {
    "\n" + Repeat(c, L) + " "
  }

  /**
   * A value that has no line starting with L separator chars holds no
   * cutter, not even one that runs on into the cutter that follows it.
   */
  /** Only the first char of the cutter is a newline. */
  lemma CutterLines(c: char, L: nat)
    requires c != '\n'
    ensures Cutter(c, L)[0] == '\n'
    ensures forall k :: 0 < k < |Cutter(c, L)| ==> Cutter(c, L)[k] != '\n'
  {
    var sep := Cutter(c, L);
    forall k | 0 < k < |sep|
      ensures sep[k] != '\n'
    {
      if k <= L {
        assert sep[k] == Repeat(c, L)[k - 1];
      }
    }
  }

  /** A match of sep at j in v + sep + rest that runs past v lines up sep's char |v| - j with its first. */
  lemma Straddle(v: string, sep: string, rest: string, j: nat)
    requires j < |v| < j + |sep| && At(v + sep + rest, sep, j)
    ensures sep[|v| - j] == sep[0]
  {
    var s := v + sep + rest;
    assert s[j..j + |sep|][|v| - j] == s[|v|];
  }

  /** A match of the cutter inside a text is a line starting with L separator chars. */
  lemma CutterRun(t: string, c: char, L: nat, j: nat)
    requires j + |Cutter(c, L)| <= |t| && At(t, Cutter(c, L), j)
    ensures LineRun(t, c, j, L)
  {
    var sep := Cutter(c, L);
    assert t[j..j + |sep|] == sep;
    assert t[j] == '\n';
    var u := t[j + 1..];
    forall k | 0 <= k < L
      ensures u[k] == c
    {
      assert u[k] == t[j..j + |sep|][1 + k];
    }
  }

  /**
   * A value that has no line starting with L separator chars holds no
   * cutter, not even one that runs on into the cutter that follows it.
   */
  lemma NoCutterIn(v: string, c: char, L: nat, rest: string)
    requires c != '\n' && forall j :: 0 <= j < |v| ==> !LineRun(v, c, j, L)
    ensures forall j :: 0 <= j < |v| ==> !At(v + Cutter(c, L) + rest, Cutter(c, L), j)
    ensures forall j :: 0 <= j <= |v| ==> !At(v, Cutter(c, L), j)
  {
    var sep := Cutter(c, L);
    var s := v + sep + rest;
    CutterLines(c, L);
    forall j | 0 <= j < |v|
      ensures !At(s, sep, j)
    {
      if At(s, sep, j) {
        if j + |sep| <= |v| {
          assert s[j..j + |sep|] == v[j..j + |sep|];
          CutterRun(v, c, L, j);
        } else {
          Straddle(v, sep, rest, j);
        }
      }
    }
    forall j | 0 <= j <= |v|
      ensures !At(v, sep, j)
    {
      if At(v, sep, j) {
        CutterRun(v, c, L, j);
      }
    }
  }

  // ---------------------------------------------------------------------
  // Writing.

  /** The entries after the first separator: key, newline, value, and "\n" + SEP before the next. */
  function Entries(kvs: seq<KV>, sep: string): string
    requires |kvs| >= 1
    decreases |kvs|
  {
    kvs[0].k + "\n" + kvs[0].v + (if |kvs| == 1 then "" else "\n" + sep + Entries(kvs[1..], sep))
  }

  /** The archive of kvs, whose keys are already encoded, under the separator sep. */
  function Write(kvs: seq<KV>, sep: string): string {
    if |kvs| == 0 then "" else sep + Entries(kvs, sep)
  }

  // ---------------------------------------------------------------------
  // Parsing.

  /** The loop of Parse: cut a key at "\n", then its value at the cutter, until either is missing. */
  function Loop(dst: seq<KV>, rest: string, cutter: string): (r: seq<KV>)
    requires |cutter| > 0
    ensures |r| >= |dst| && r[..|dst|] == dst
    decreases |rest|
  {
    match Cut(rest, "\n")
    case None => dst
    case Some((key, r1)) =>
      match Cut(r1, cutter)
      case None => dst + [KV(key, r1)]
      case Some((value, r2)) =>
        var r := Loop(dst + [KV(key, value)], r2, cutter);
        assert r[..|dst|] == (r[..|dst| + 1])[..|dst|];
        r
  }

  /** Parse: SEP is the text before the first space; nothing is read when there is none. */
  function Read(dst: seq<KV>, ar: string): (r: seq<KV>)
    ensures |r| >= |dst| && r[..|dst|] == dst
    ensures Cut(ar, " ").None? ==> r == dst
  {
    match Cut(ar, " ")
    case None => dst
    case Some((sep, rest)) => Loop(dst, rest, "\n" + sep + " ")
  }

  /** No key has a newline. */
  predicate FlatKeys(kvs: seq<KV>) {
    forall i :: 0 <= i < |kvs| ==> '\n' !in kvs[i].k
  }

  lemma CutKey(key: string, rest: string)
    requires '\n' !in key
    ensures Cut(key + "\n" + rest, "\n") == Some((key, rest))
  {
    forall j | 0 <= j < |key|
      ensures !At(key + "\n" + rest, "\n", j)
    {
      assert (key + "\n" + rest)[j] == key[j];
    }
    CutAt(key, "\n", rest);
  }

  /** One turn of the loop: a key line, then a value ended by the cutter. */
  lemma LoopStep(dst: seq<KV>, k: string, v: string, tail: string, cutter: string)
    requires |cutter| > 0 && '\n' !in k
    requires forall j :: 0 <= j < |v| ==> !At(v + cutter + tail, cutter, j)
    ensures Loop(dst, k + "\n" + (v + cutter + tail), cutter) == Loop(dst + [KV(k, v)], tail, cutter)
  {
    CutKey(k, v + cutter + tail);
    CutAt(v, cutter, tail);
  }

  /** The last turn: a key line, then a value with no cutter in it. */
  lemma LoopLast(dst: seq<KV>, k: string, v: string, cutter: string)
    requires |cutter| > 0 && '\n' !in k
    requires forall j :: 0 <= j <= |v| ==> !At(v, cutter, j)
    ensures Loop(dst, k + "\n" + v, cutter) == dst + [KV(k, v)]
  {
    CutKey(k, v);
  }

  lemma TailFacts(kvs: seq<KV>, c: char, L: nat)
    requires |kvs| >= 1 && FlatKeys(kvs) && Clear(kvs, c, L)
    ensures FlatKeys(kvs[1..]) && Clear(kvs[1..], c, L)
    ensures '\n' !in kvs[0].k && forall j :: 0 <= j < |kvs[0].v| ==> !LineRun(kvs[0].v, c, j, L)
  {
    assert forall i :: 0 <= i < |kvs| - 1 ==> kvs[1..][i] == kvs[i + 1];
  }

  /** The entries, cut after the first value. */
  lemma EntriesCons(kvs: seq<KV>, c: char, L: nat)
    requires |kvs| >= 2
    ensures Entries(kvs, Repeat(c, L) + " ") == kvs[0].k + "\n" + (kvs[0].v + Cutter(c, L) + Entries(kvs[1..], Repeat(c, L) + " "))
  {
  }

  /** The entries of a single pair. */
  lemma EntriesOne(kvs: seq<KV>, sep: string)
    requires |kvs| == 1
    ensures Entries(kvs, sep) == kvs[0].k + "\n" + kvs[0].v
  {
  }

  /** The last value, free of long separator runs, is read whole. */
  lemma LoopLastClean(dst: seq<KV>, k: string, v: string, c: char, L: nat)
    requires c != '\n' && '\n' !in k
    requires forall j :: 0 <= j < |v| ==> !LineRun(v, c, j, L)
    ensures Loop(dst, k + "\n" + v, Cutter(c, L)) == dst + [KV(k, v)]
  {
    NoCutterIn(v, c, L, "");
    LoopLast(dst, k, v, Cutter(c, L));
  }

  /** A value free of long separator runs ends at the cutter that follows it. */
  lemma LoopStepClean(dst: seq<KV>, k: string, v: string, tail: string, c: char, L: nat)
    requires c != '\n' && '\n' !in k
    requires forall j :: 0 <= j < |v| ==> !LineRun(v, c, j, L)
    ensures Loop(dst, k + "\n" + (v + Cutter(c, L) + tail), Cutter(c, L)) == Loop(dst + [KV(k, v)], tail, Cutter(c, L))
  {
    NoCutterIn(v, c, L, tail);
    LoopStep(dst, k, v, tail, Cutter(c, L));
  }

  lemma ReadsLast(dst: seq<KV>, kvs: seq<KV>, c: char, L: nat)
    requires |kvs| == 1 && c != '\n' && '\n' !in kvs[0].k
    requires forall j :: 0 <= j < |kvs[0].v| ==> !LineRun(kvs[0].v, c, j, L)
    ensures Loop(dst, Entries(kvs, Repeat(c, L) + " "), Cutter(c, L)) == dst + kvs
  {
    EntriesOne(kvs, Repeat(c, L) + " ");
    LoopLastClean(dst, kvs[0].k, kvs[0].v, c, L);
    assert kvs == [KV(kvs[0].k, kvs[0].v)];
  }

  /** One more entry in front: read it, then what the tail reads. */
  lemma ReadsNext(dst: seq<KV>, kvs: seq<KV>, c: char, L: nat)
    requires |kvs| >= 2 && c != '\n' && '\n' !in kvs[0].k
    requires forall j :: 0 <= j < |kvs[0].v| ==> !LineRun(kvs[0].v, c, j, L)
    requires Loop(dst + [kvs[0]], Entries(kvs[1..], Repeat(c, L) + " "), Cutter(c, L)) == dst + [kvs[0]] + kvs[1..]
    ensures Loop(dst, Entries(kvs, Repeat(c, L) + " "), Cutter(c, L)) == dst + kvs
  {
    var sep, cut := Repeat(c, L) + " ", Cutter(c, L);
    var k, v, tail := kvs[0].k, kvs[0].v, Entries(kvs[1..], sep);
    EntriesCons(kvs, c, L);
    LoopStepClean(dst, k, v, tail, c, L);
    assert KV(k, v) == kvs[0];
    ConsBack(dst, kvs);
  }

  lemma ConsBack(dst: seq<KV>, kvs: seq<KV>)
    requires |kvs| > 0
    ensures dst + [kvs[0]] + kvs[1..] == dst + kvs
  {
    assert [kvs[0]] + kvs[1..] == kvs;
  }

  /** The loop reads back every entry that Entries wrote. */
  lemma {:induction false} LoopReadsEntries(dst: seq<KV>, kvs: seq<KV>, c: char, L: nat)
    requires |kvs| >= 1 && c != '\n' && FlatKeys(kvs) && Clear(kvs, c, L)
    ensures Loop(dst, Entries(kvs, Repeat(c, L) + " "), Cutter(c, L)) == dst + kvs
    decreases |kvs|
  {
    TailFacts(kvs, c, L);
    if |kvs| == 1 {
      ReadsLast(dst, kvs, c, L);
    } else {
      LoopReadsEntries(dst + [kvs[0]], kvs[1..], c, L);
      ReadsNext(dst, kvs, c, L);
    }
  }

  /** A run of one char other than a space holds no space to cut at. */
  lemma NoSpaceInRun(run: string, tail: string, c: char)
    requires c != ' ' && forall i :: 0 <= i < |run| ==> run[i] == c
    ensures forall j :: 0 <= j < |run| ==> !At(run + " " + tail, " ", j)
  {
    var s := run + " " + tail;
    forall j | 0 <= j < |run|
      ensures !At(s, " ", j)
    {
      assert s[j] == run[j] == c;
      assert s[j..j + 1][0] == s[j];
    }
  }

  /**
   * Reading back an archive written with a separator char other than
   * space and newline, whose run is longer than every leading run in the
   * values, gives back exactly the entries, after what was already there.
   */
  lemma ReadWrite(dst: seq<KV>, kvs: seq<KV>, c: char, L: nat)
    requires c != '\n' && c != ' ' && FlatKeys(kvs) && Clear(kvs, c, L)
    ensures Read(dst, Write(kvs, Repeat(c, L) + " ")) == dst + kvs
  {
    if |kvs| > 0 {
      var run := Repeat(c, L);
      var tail := Entries(kvs, run + " ");
      NoSpaceInRun(run, tail, c);
      CutAt(run, " ", tail);
      assert Write(kvs, run + " ") == run + " " + tail;
      LoopReadsEntries(dst, kvs, c, L);
    }
  }
}
