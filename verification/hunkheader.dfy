/**
 * The hunk-header picker of internal/fmtdiff/hunkheader.go: while lines
 * stream past it remembers the least indented line that starts with a
 * letter, preferring the first line of the last run of such lines, and
 * offers it as the header of the hunk that follows.
 */
module HunkHeader {
  import Text

  /** The picker's state: the chosen line, its indent, and whether the last line continued its run. */
  datatype Picker = Picker(indent: int, line: string, inrun: bool)

  /** The zero value the source starts from. */
  const Fresh := Picker(0, "", false)

  /** A line that can serve as a header: more than two bytes once trimmed, a letter among the first two. */
  predicate Candidate(s: string) {
    var t := Text.TrimSpace(s);
    |t| > 2 && (Text.IsLetter(t[0]) || Text.IsLetter(t[1]))
  }

  lemma CandidateNotEmpty(s: string)
    requires Candidate(s)
    ensures s != "" && !Text.IsBlank(s)
  {
  }

  /** hunkheader.improve: look at one more line. */
  function Improve(h: Picker, s: string): (h': Picker)
    ensures !Candidate(s) ==> h' == h.(inrun := false)
    ensures h'.line == h.line || (h'.line == s && Candidate(s) && h'.indent == Text.CountIndent(s) && h'.inrun)
    ensures h.line != "" ==> h'.line != "" && h'.indent <= h.indent
  {
    if !Candidate(s) then h.(inrun := false)
    else
      var indent := Text.CountIndent(s);
      if h.line != "" && indent > h.indent then h.(inrun := false)
      else if indent == h.indent && h.inrun then h
      else Picker(indent, s, true)
  }

  /** The picker after seeing all of lines, in order. */
  function Feed(h: Picker, lines: seq<string>): Picker
    decreases |lines|
  {
    if |lines| == 0 then h else Improve(Feed(h, lines[..|lines| - 1]), lines[|lines| - 1])
  }

  // ---------------------------------------------------------------------
  // Which line the picker ends up with.

  /** What the picker sees of a line: whether it is a candidate, and its indent. */
  datatype Class = Class(cand: bool, indent: nat)

  function ClassOf(s: string): Class {
    Class(Candidate(s), Text.CountIndent(s))
  }

  function Classes(lines: seq<string>): (cs: seq<Class>)
    ensures |cs| == |lines| && forall k :: 0 <= k < |lines| ==> cs[k] == ClassOf(lines[k])
  {
    seq(|lines|, k requires 0 <= k < |lines| => ClassOf(lines[k]))
  }

  /** A candidate of indent m whose predecessor is not one: the first line of a run. */
  predicate StartsRun(cs: seq<Class>, p: int, m: int)
    requires 0 <= p < |cs|
  {
    && cs[p].cand && cs[p].indent == m
    && (p == 0 || !(cs[p - 1].cand && cs[p - 1].indent == m))
  }

  predicate NoCandidate(cs: seq<Class>) {
    forall k :: 0 <= k < |cs| ==> !cs[k].cand
  }

  /**
   * Picking line p of lines of classes cs leaves the picker at indent m:
   * p starts the last run of candidates of the least indent m, and inrun
   * holds exactly when the last line belongs to that run.
   */
  predicate PickedAt(cs: seq<Class>, p: int, m: int, inrun: bool)
    requires 0 <= p < |cs|
  {
    && StartsRun(cs, p, m)
    && (forall k :: 0 <= k < |cs| && cs[k].cand ==> cs[k].indent >= m)
    && (forall q :: p < q < |cs| ==> !StartsRun(cs, q, m))
    && (inrun <==> cs[|cs| - 1].cand && cs[|cs| - 1].indent == m)
  }

  /** h has picked line p of lines. */
  predicate Picked(lines: seq<string>, p: int, h: Picker)
    requires 0 <= p < |lines|
  {
    h.line == lines[p] && PickedAt(Classes(lines), p, h.indent, h.inrun)
  }

  /** Until a candidate shows up the picker stays fresh. */
  lemma {:induction false} FeedNone(lines: seq<string>)
    requires NoCandidate(Classes(lines))
    ensures Feed(Fresh, lines) == Fresh
    decreases |lines|
  {
    if |lines| > 0 {
      var init := lines[..|lines| - 1];
      assert !Classes(lines)[|lines| - 1].cand;
      assert NoCandidate(Classes(init)) by {
        forall k | 0 <= k < |init|
          ensures !Classes(init)[k].cand
        {
          assert Classes(init)[k] == Classes(lines)[k];
        }
      }
      FeedNone(init);
    }
  }

  /** A line that neither starts a run nor undercuts the pick leaves the pick where it was. */
  lemma PickStays(cs: seq<Class>, c: Class, q: nat, m: int, inrun: bool, inrun': bool)
    requires q < |cs| && PickedAt(cs, q, m, inrun)
    requires c.cand ==> c.indent >= m
    requires !StartsRun(cs + [c], |cs|, m)
    requires inrun' <==> c.cand && c.indent == m
    ensures PickedAt(cs + [c], q, m, inrun')
  {
    var ds := cs + [c];
    assert forall k :: 0 <= k < |cs| ==> ds[k] == cs[k];
    forall r | q < r < |ds|
      ensures !StartsRun(ds, r, m)
    {
      if r < |cs| {
        assert !StartsRun(cs, r, m);
      }
    }
  }

  /** A candidate at most as indented as every earlier one, starting a run, becomes the pick. */
  lemma PickMoves(cs: seq<Class>, c: Class)
    requires c.cand
    requires forall k :: 0 <= k < |cs| && cs[k].cand ==> cs[k].indent >= c.indent
    requires StartsRun(cs + [c], |cs|, c.indent)
    ensures PickedAt(cs + [c], |cs|, c.indent, true)
  {
    var ds := cs + [c];
    assert forall k :: 0 <= k < |cs| ==> ds[k] == cs[k];
  }

  /** One more line for a picker that has picked line q of cs: where the pick goes. */
  lemma ImproveStep(cs: seq<Class>, c: Class, s: string, h: Picker, q: nat) returns (p: nat)
    requires c == ClassOf(s) && q < |cs| && PickedAt(cs, q, h.indent, h.inrun) && h.line != ""
    ensures p <= |cs| && PickedAt(cs + [c], p, Improve(h, s).indent, Improve(h, s).inrun)
    ensures p == |cs| ==> Improve(h, s).line == s
    ensures p < |cs| ==> p == q && Improve(h, s).line == h.line
  {
    var h' := Improve(h, s);
    if !c.cand || c.indent > h.indent {
      p := q;
      PickStays(cs, c, q, h.indent, h.inrun, h'.inrun);
    } else if c.indent == h.indent && h.inrun {
      p := q;
      PickStays(cs, c, q, h.indent, h.inrun, h'.inrun);
    } else {
      p := |cs|;
      PickMoves(cs, c);
    }
  }

  lemma ClassesSnoc(lines: seq<string>, init: seq<string>, s: string)
    requires lines == init + [s]
    ensures Classes(lines) == Classes(init) + [ClassOf(s)]
  {
    assert forall k :: 0 <= k < |init| ==> lines[k] == init[k];
  }

  /** The first candidate of a stream is picked. */
  lemma Begin(lines: seq<string>, init: seq<string>, s: string)
    requires lines == init + [s] && NoCandidate(Classes(init)) && !NoCandidate(Classes(lines))
    ensures Picked(lines, |init|, Improve(Fresh, s))
  {
    var cs, c := Classes(init), ClassOf(s);
    ClassesSnoc(lines, init, s);
    assert c.cand;
    PickMoves(cs, c);
    PickedOf(lines, cs + [c], |init|, Improve(Fresh, s));
  }

  /** A pick survives one more line, or moves to it. */
  lemma Advance(lines: seq<string>, init: seq<string>, s: string, h: Picker, q: nat) returns (p: nat)
    requires lines == init + [s] && q < |init| && Picked(init, q, h)
    ensures p < |lines| && Picked(lines, p, Improve(h, s))
  {
    var cs, c := Classes(init), ClassOf(s);
    ClassesSnoc(lines, init, s);
    assert cs[q].cand;
    CandidateNotEmpty(init[q]);
    p := ImproveStep(cs, c, s, h, q);
    PickedOf(lines, cs + [c], p, Improve(h, s));
  }

  /** A non-empty sequence is its front and its last element. */
  lemma Split(lines: seq<string>)
    requires |lines| > 0
    ensures lines == lines[..|lines| - 1] + [lines[|lines| - 1]]
  {
  }


  /** The picker, started fresh, picks the first line of the last least-indented run. */
  lemma {:induction false} FeedPicks(lines: seq<string>) returns (p: nat)
    requires !NoCandidate(Classes(lines))
    ensures p < |lines| && Picked(lines, p, Feed(Fresh, lines))
    decreases |lines|
  {
    if NoCandidate(Classes(lines[..|lines| - 1])) {
      p := |lines| - 1;
      FeedBegins(lines);
    } else {
      var q := FeedPicks(lines[..|lines| - 1]);
      p := FeedAdvances(lines, q);
    }
  }

  lemma FeedBegins(lines: seq<string>)
    requires |lines| > 0 && NoCandidate(Classes(lines[..|lines| - 1])) && !NoCandidate(Classes(lines))
    ensures Picked(lines, |lines| - 1, Feed(Fresh, lines))
  {
    var init, s := lines[..|lines| - 1], lines[|lines| - 1];
    Split(lines);
    FeedNone(init);
    Begin(lines, init, s);
  }

  lemma FeedAdvances(lines: seq<string>, q: nat) returns (p: nat)
    requires |lines| > 0 && q < |lines| - 1 && Picked(lines[..|lines| - 1], q, Feed(Fresh, lines[..|lines| - 1]))
    ensures p < |lines| && Picked(lines, p, Feed(Fresh, lines))
  {
    var init, s := lines[..|lines| - 1], lines[|lines| - 1];
    Split(lines);
    p := Advance(lines, init, s, Feed(Fresh, init), q);
  }

  lemma PickedOf(lines: seq<string>, cs: seq<Class>, p: nat, h: Picker)
    requires p < |lines| && cs == Classes(lines) && h.line == lines[p] && PickedAt(cs, p, h.indent, h.inrun)
    ensures Picked(lines, p, h)
  {
  }

  /**
   * With no candidate nothing is picked; otherwise the pick is a candidate
   * of least indent that starts the last run of such candidates.
   */
  lemma FeedChoice(lines: seq<string>)
    ensures NoCandidate(Classes(lines)) ==> Feed(Fresh, lines).line == ""
    ensures !NoCandidate(Classes(lines)) ==> exists p :: 0 <= p < |lines| && Picked(lines, p, Feed(Fresh, lines))
  {
    if NoCandidate(Classes(lines)) {
      FeedNone(lines);
    } else {
      var p := FeedPicks(lines);
    }
  }

  // ---------------------------------------------------------------------
  // The header.

  /** The next hunk's first line sits deeper than the pick, or level with it while in its run. */
  predicate Opens(h: Picker, s: string) {
    var indent := Text.CountIndent(s);
    indent > h.indent || (indent == h.indent && h.inrun)
  }

  /** xs[j] is the first line of xs that is not blank. */
  predicate FirstSolid(xs: seq<string>, j: int) {
    0 <= j < |xs| && !Text.IsBlank(xs[j]) && forall i :: 0 <= i < j ==> Text.IsBlank(xs[i])
  }

  /** hunkheader.header: the header, or "" when the first non-blank line of xs does not open a hunk. */
  function Header(h: Picker, xs: seq<string>): (r: string)
    ensures r == "" || (h.line != "" && r == " " + Text.TrimSpace(h.line))
    decreases |xs|
  {
    if h.line == "" then ""
    else if |xs| == 0 then ""
    else if Text.TrimSpace(xs[0]) == "" then Header(h, xs[1..])
    else if Opens(h, xs[0]) then " " + Text.TrimSpace(h.line)
    else ""
  }

  /** Below a blank head, the first solid line of xs is the one of its tail, one further on. */
  lemma SolidTail(xs: seq<string>)
    requires |xs| > 0 && Text.IsBlank(xs[0])
    ensures forall j :: FirstSolid(xs[1..], j) ==> FirstSolid(xs, j + 1) && xs[1..][j] == xs[j + 1]
    ensures forall j :: FirstSolid(xs, j) ==> j > 0 && FirstSolid(xs[1..], j - 1)
  {
    forall j | FirstSolid(xs[1..], j)
      ensures FirstSolid(xs, j + 1)
    {
      forall i | 0 <= i < j + 1
        ensures Text.IsBlank(xs[i])
      {
        if i > 0 {
          assert xs[i] == xs[1..][i - 1];
        }
      }
    }
    forall j | FirstSolid(xs, j)
      ensures j > 0 && FirstSolid(xs[1..], j - 1)
    {
      forall i | 0 <= i < j - 1
        ensures Text.IsBlank(xs[1..][i])
      {
        assert xs[1..][i] == xs[i + 1];
      }
    }
  }

  /** Header is decided by the first non-blank line of xs alone. */
  lemma {:induction false} HeaderOpens(h: Picker, xs: seq<string>)
    ensures Header(h, xs) != "" <==> h.line != "" && exists j :: FirstSolid(xs, j) && Opens(h, xs[j])
    decreases |xs|
  {
    if h.line != "" && |xs| > 0 {
      if Text.TrimSpace(xs[0]) == "" {
        HeaderOpens(h, xs[1..]);
        SolidTail(xs);
        if Header(h, xs) != "" {
          var j :| FirstSolid(xs[1..], j) && Opens(h, xs[1..][j]);
          assert FirstSolid(xs, j + 1) && Opens(h, xs[j + 1]);
        }
      } else {
        assert FirstSolid(xs, 0);
        assert forall j :: FirstSolid(xs, j) ==> j == 0;
      }
    }
  }
}
