/**
 * The pieces of Go's `strings`, `unicode` and `strconv` packages that the
 * diff engine and the archive formats rely on, over Dafny strings.
 *
 * Go strings are byte strings: throughout the model a `char` stands for one
 * byte, and every string the source produces uses only char values 0..255.
 */
module Text {
  import opened Wrappers

  /** The value of the byte a char stands for. */
  function ByteOf(c: char): (b: nat)
    ensures b < 256
  {
    (c as int) % 256
  }

  // ---------------------------------------------------------------------
  // strings.Split and strings.Join with a one-character separator.

  /** strings.Split(s, string(c)): the pieces between occurrences of c. */
  function Split(s: string, c: char): (r: seq<string>)
    ensures |r| >= 1
    ensures forall i :: 0 <= i < |r| ==> c !in r[i]
    decreases |s|
  {
    if |s| == 0 then [""]
    else
      var rest := Split(s[1..], c);
      if s[0] == c then [""] + rest
      else [[s[0]] + rest[0]] + rest[1..]
  }

  /** strings.Join(ss, string(c)). */
  function Join(ss: seq<string>, c: char): string
    decreases |ss|
  {
    if |ss| == 0 then ""
    else if |ss| == 1 then ss[0]
    else ss[0] + [c] + Join(ss[1..], c)
  }

  /** Joining the pieces of a split gives back the original string. */
  lemma {:induction false} JoinSplit(s: string, c: char)
    ensures Join(Split(s, c), c) == s
    decreases |s|
  {
    if |s| > 0 {
      var rest := Split(s[1..], c);
      JoinSplit(s[1..], c);
      if s[0] == c {
        assert Split(s, c) == [""] + rest;
        assert ([""] + rest)[1..] == rest;
      } else {
        var r := [[s[0]] + rest[0]] + rest[1..];
        assert Split(s, c) == r;
        if |rest| == 1 {
          assert Join(r, c) == [s[0]] + rest[0];
        } else {
          assert r[1..] == rest[1..];
          assert Join(rest, c) == rest[0] + [c] + Join(rest[1..], c);
          assert Join(r, c) == [s[0]] + rest[0] + [c] + Join(rest[1..], c);
        }
        assert s == [s[0]] + s[1..];
      }
    }
  }

  /** Splitting a join of separator-free pieces gives back the pieces. */
  lemma {:induction false} SplitJoin(ss: seq<string>, c: char)
    requires |ss| >= 1
    requires forall i :: 0 <= i < |ss| ==> c !in ss[i]
    ensures Split(Join(ss, c), c) == ss
    decreases |ss|, |ss[0]|
  {
    if |ss| == 1 {
      SplitFree(ss[0], c);
    } else if |ss[0]| == 0 {
      var rest := Join(ss[1..], c);
      assert Join(ss, c) == [c] + rest;
      assert ([c] + rest)[1..] == rest;
      SplitJoin(ss[1..], c);
      assert [""] + ss[1..] == ss;
    } else {
      var head := ss[0][1..];
      var ss' := [head] + ss[1..];
      assert ss'[1..] == ss[1..];
      assert Join(ss', c) == head + [c] + Join(ss[1..], c);
      assert Join(ss, c) == [ss[0][0]] + Join(ss', c);
      assert (forall i :: 0 <= i < |ss'| ==> c !in ss'[i]) by {
        forall i | 0 <= i < |ss'|
          ensures c !in ss'[i]
        {
          if i == 0 {
            assert forall k :: 0 <= k < |head| ==> head[k] == ss[0][k + 1];
          } else {
            assert ss'[i] == ss[i];
          }
        }
      }
      SplitJoin(ss', c);
      assert ([ss[0][0]] + Join(ss', c))[1..] == Join(ss', c);
      assert ss[0] == [ss[0][0]] + head;
      assert [[ss[0][0]] + head] + ss'[1..] == ss;
    }
  }

  /** A string without the separator splits into itself. */
  lemma {:induction false} SplitFree(s: string, c: char)
    requires c !in s
    ensures Split(s, c) == [s]
    decreases |s|
  {
    if |s| > 0 {
      assert c !in s[1..];
      SplitFree(s[1..], c);
      assert s == [s[0]] + s[1..];
    }
  }

  /** Join is injective on non-empty sequences of separator-free pieces. */
  lemma JoinInjective(a: seq<string>, b: seq<string>, c: char)
    requires |a| >= 1 && |b| >= 1
    requires forall i :: 0 <= i < |a| ==> c !in a[i]
    requires forall i :: 0 <= i < |b| ==> c !in b[i]
    ensures Join(a, c) == Join(b, c) <==> a == b
  {
    if Join(a, c) == Join(b, c) {
      SplitJoin(a, c);
      SplitJoin(b, c);
    }
  }

  /** Joining one more piece appends the separator and the piece. */
  lemma {:induction false} JoinSnoc(ss: seq<string>, t: string, c: char)
    requires |ss| >= 1
    ensures Join(ss + [t], c) == Join(ss, c) + [c] + t
    decreases |ss|
  {
    if |ss| == 1 {
      assert (ss + [t])[1..] == [t];
    } else {
      assert (ss + [t])[1..] == ss[1..] + [t];
      JoinSnoc(ss[1..], t, c);
    }
  }

  // ---------------------------------------------------------------------
  // strings.Index and strings.Cut.

  /** sep occurs in s at position i. */
  predicate At(s: string, sep: string, i: nat) {
    i + |sep| <= |s| && s[i..i + |sep|] == sep
  }

  /** The first occurrence of sep in s at or after position i. */
  function IndexFrom(s: string, sep: string, i: nat): (r: Option<nat>)
    requires i <= |s|
    ensures r.Some? ==> i <= r.value && At(s, sep, r.value)
    ensures r.Some? ==> forall j :: i <= j < r.value ==> !At(s, sep, j)
    ensures r.None? ==> forall j :: i <= j <= |s| ==> !At(s, sep, j)
    decreases |s| - i
  {
    if At(s, sep, i) then Some(i)
    else if i == |s| then None
    else IndexFrom(s, sep, i + 1)
  }

  /** strings.Index(s, sep), with None for Go's -1. */
  function Index(s: string, sep: string): (r: Option<nat>)
    ensures r.Some? ==> At(s, sep, r.value) && forall j :: 0 <= j < r.value ==> !At(s, sep, j)
    ensures r.None? ==> forall j :: 0 <= j <= |s| ==> !At(s, sep, j)
  {
    IndexFrom(s, sep, 0)
  }

  /** strings.Cut(s, sep): the text before and after the first sep, if any. */
  function Cut(s: string, sep: string): (r: Option<(string, string)>)
    ensures r.Some? ==> s == r.value.0 + sep + r.value.1
    ensures r.Some? ==> forall j :: 0 <= j < |r.value.0| ==> !At(s, sep, j)
    ensures r.None? ==> forall j :: 0 <= j <= |s| ==> !At(s, sep, j)
  {
    match Index(s, sep)
    case None => None
    case Some(i) =>
      assert s == s[..i] + s[i..i + |sep|] + s[i + |sep|..];
      Some((s[..i], s[i + |sep|..]))
  }

  /**
   * Cutting a + sep + b at sep finds exactly this sep when no occurrence of
   * sep starts inside a.
   */
  lemma CutAt(a: string, sep: string, b: string)
    requires forall j :: 0 <= j < |a| ==> !At(a + sep + b, sep, j)
    ensures Cut(a + sep + b, sep) == Some((a, b))
  {
    var s := a + sep + b;
    assert s[|a|..|a| + |sep|] == sep;
    assert At(s, sep, |a|);
    var r := Cut(s, sep);
    assert r.Some?;
    assert |r.value.0| == |a|;
    assert s[..|a|] == a;
    assert s[|a| + |sep|..] == b;
  }

  // ---------------------------------------------------------------------
  // Small builders.

  /** strings.Repeat(string(c), n). */
  function Repeat(c: char, n: nat): (r: string)
    ensures |r| == n
    ensures forall i :: 0 <= i < n ==> r[i] == c
  {
    if n == 0 then "" else [c] + Repeat(c, n - 1)
  }

  /** strings.ReplaceAll(s, string(c), rep). */
  function ReplaceChar(s: string, c: char, rep: string): (r: string)
    ensures c !in rep ==> c !in r
    ensures c !in s ==> r == s
    decreases |s|
  {
    if |s| == 0 then ""
    else (if s[0] == c then rep else [s[0]]) + ReplaceChar(s[1..], c, rep)
  }

  /** Replacing distributes over concatenation. */
  lemma {:induction false} ReplaceCharAppend(a: string, b: string, c: char, rep: string)
    ensures ReplaceChar(a + b, c, rep) == ReplaceChar(a, c, rep) + ReplaceChar(b, c, rep)
    decreases |a|
  {
    if |a| > 0 {
      var head := if a[0] == c then rep else [a[0]];
      assert (a + b)[0] == a[0] && (a + b)[1..] == a[1..] + b;
      ReplaceCharAppend(a[1..], b, c, rep);
      assert ReplaceChar(a + b, c, rep) == head + ReplaceChar(a[1..] + b, c, rep);
      assert ReplaceChar(a, c, rep) == head + ReplaceChar(a[1..], c, rep);
    } else {
      assert a + b == b;
    }
  }

  // ---------------------------------------------------------------------
  // Character classes.

  /** The ASCII white space that strings.TrimSpace removes. */
  predicate IsSpace(c: char) {
    c == ' ' || c == '\t' || c == '\n' || c == '\r' || c == '\U{0B}' || c == '\U{0C}'
  }

  /** unicode.IsLetter for runes below 256: ASCII and Latin-1 letters. */
  predicate IsLetter(c: char) {
    ('a' <= c <= 'z') || ('A' <= c <= 'Z')
    || c == 'ª' || c == 'µ' || c == 'º'
    || ('À' <= c <= 'Ö') || ('Ø' <= c <= 'ö') || ('ø' <= c <= 'ÿ')
  }

  /** unicode.IsDigit for runes below 256. */
  predicate IsDigit(c: char) {
    '0' <= c <= '9'
  }

  /** The two-byte UTF-8 encodings of white space: U+0085 and U+00A0. */
  predicate NarrowSpace(a: char, b: char) {
    a == '\U{C2}' && (b == '\U{85}' || b == '\U{A0}')
  }

  /**
   * The three-byte UTF-8 encodings of white space: U+1680, U+2000 to
   * U+200A, U+2028, U+2029, U+202F, U+205F and U+3000.
   */
  predicate WideSpace(a: char, b: char, c: char) {
    || (a == '\U{E1}' && b == '\U{9A}' && c == '\U{80}')
    || (a == '\U{E2}' && b == '\U{80}' && ('\U{80}' <= c <= '\U{8A}' || c == '\U{A8}' || c == '\U{A9}' || c == '\U{AF}'))
    || (a == '\U{E2}' && b == '\U{81}' && c == '\U{9F}')
    || (a == '\U{E3}' && b == '\U{80}' && c == '\U{80}')
  }

  /**
   * The length of the rune unicode.IsSpace accepts that starts at s[i], 0
   * when none does. Decoding UTF-8 from s[i] yields one of these runes
   * exactly when its encoding starts there: no valid encoding is a prefix of
   * another, and invalid bytes decode to U+FFFD, which is not white space.
   */
  function LeadAt(s: string, i: nat): (n: nat)
    requires i <= |s|
    ensures n <= |s| - i && n <= 3
  {
    if i + 1 <= |s| && IsSpace(s[i]) then 1
    else if i + 2 <= |s| && NarrowSpace(s[i], s[i + 1]) then 2
    else if i + 3 <= |s| && WideSpace(s[i], s[i + 1], s[i + 2]) then 3
    else 0
  }

  /**
   * The length of the white-space rune that ends just before s[j], 0 when
   * none does: what utf8.DecodeLastRuneInString(s[:j]) finds, since no
   * valid encoding is a suffix of another.
   */
  function TrailAt(s: string, j: nat): (n: nat)
    requires j <= |s|
    ensures n <= j && n <= 3
  {
    if j >= 1 && IsSpace(s[j - 1]) then 1
    else if j >= 2 && NarrowSpace(s[j - 2], s[j - 1]) then 2
    else if j >= 3 && WideSpace(s[j - 3], s[j - 2], s[j - 1]) then 3
    else 0
  }

  /** Where the run of white-space runes from s[i] on ends: the scan of strings.TrimLeftFunc. */
  function LeftCut(s: string, i: nat): (k: nat)
    requires i <= |s|
    ensures i <= k <= |s| && LeadAt(s, k) == 0
    decreases |s| - i
  {
    var n := LeadAt(s, i);
    if n == 0 then i else LeftCut(s, i + n)
  }

  /**
   * Where the run of white-space runes ending before s[j] begins: the scan
   * of strings.TrimRightFunc. When it eats all of s[..j], s starts with a
   * white-space rune too.
   */
  function RightCut(s: string, j: nat): (k: nat)
    requires j <= |s|
    ensures k <= j && TrailAt(s, k) == 0
    ensures k == 0 < j ==> LeadAt(s, 0) > 0
    decreases j
  {
    var n := TrailAt(s, j);
    if n == 0 then j
    else
      var k := RightCut(s, j - n);
      assert k == 0 && j == n ==> LeadAt(s, 0) == n;
      k
  }

  /** s is a run of white-space runes, so strings.TrimSpace(s) == "". */
  predicate IsBlank(s: string) {
    LeftCut(s, 0) == |s|
  }

  /** strings.TrimLeftFunc(s, unicode.IsSpace): drop the white-space runes in front. */
  function TrimLeft(s: string): (r: string)
    ensures |r| <= |s| && r == s[|s| - |r|..] && LeftCut(s, 0) == |s| - |r|
    ensures r == "" <==> IsBlank(s)
    ensures LeadAt(r, 0) == 0
  {
    var k := LeftCut(s, 0);
    assert forall i :: 0 <= i < |s| - k ==> s[k..][i] == s[k + i];
    s[k..]
  }

  /** strings.TrimRightFunc(s, unicode.IsSpace): drop the white-space runes at the end. */
  function TrimRight(s: string): (r: string)
    ensures |r| <= |s| && r == s[..|r|] && RightCut(s, |s|) == |r|
    ensures TrailAt(r, |r|) == 0
    ensures r == "" && s != "" ==> LeadAt(s, 0) > 0
  {
    s[..RightCut(s, |s|)]
  }

  /**
   * strings.TrimSpace: drop the white-space runes at both ends. Its ASCII
   * fast paths give the same result as trimming rune by rune.
   */
  function TrimSpace(s: string): (r: string)
    ensures LeftCut(s, 0) + |r| <= |s| && r == s[LeftCut(s, 0)..LeftCut(s, 0) + |r|]
    ensures |r| == RightCut(s[LeftCut(s, 0)..], |s| - LeftCut(s, 0))
    ensures r == "" <==> IsBlank(s)
    ensures r != "" ==> LeadAt(r, 0) == 0 && TrailAt(r, |r|) == 0
  {
    var l := TrimLeft(s);
    var r := TrimRight(l);
    assert forall i :: 0 <= i < |r| ==> r[i] == l[i] == s[LeftCut(s, 0) + i];
    r
  }

  /** A trailing no-break space is trimmed, and a line of only one is blank. */
  lemma NoBreakSpaceTrimmed()
    ensures TrimSpace("x\U{C2}\U{A0}") == "x"
    ensures IsBlank("\U{C2}\U{A0}") && TrimSpace("\U{C2}\U{A0}") == "" && CountIndent("\U{C2}\U{A0}") == BlankIndent
  {
    var s := "x\U{C2}\U{A0}";
    assert LeftCut(s, 0) == 0;
    assert RightCut(s[0..], 3) == RightCut(s, 1) == 1;
    assert s[0..][..1] == "x";
    var t := "\U{C2}\U{A0}";
    assert LeftCut(t, 0) == LeftCut(t, 2) == 2;
  }

  /** Trimming twice trims nothing more. */
  lemma TrimSpaceIdempotent(s: string)
    ensures TrimSpace(TrimSpace(s)) == TrimSpace(s)
  {
    var r := TrimSpace(s);
    if r != "" {
      assert TrimLeft(r) == r[0..] == r;
      assert TrimRight(r) == r[..|r|] == r;
    }
  }

  /** The white space countIndent measures: leading spaces and tabs. */
  predicate IsIndentChar(c: char) {
    c == ' ' || c == '\t'
  }

  function LeadingIndent(s: string): (n: nat)
    ensures n <= |s|
    ensures forall i :: 0 <= i < n ==> IsIndentChar(s[i])
    ensures n < |s| ==> !IsIndentChar(s[n])
    decreases |s|
  {
    if |s| > 0 && IsIndentChar(s[0]) then 1 + LeadingIndent(s[1..]) else 0
  }

  /** The indentation of blank lines: larger than any real indentation. */
  const BlankIndent: nat := 0x4000_0000

  /**
   * countIndent: blank lines count as 1<<30, other lines count their
   * leading spaces and tabs.
   */
  function CountIndent(s: string): (r: nat)
    ensures IsBlank(s) ==> r == BlankIndent
    ensures !IsBlank(s) ==> r < |s| && !IsIndentChar(s[r])
    ensures !IsBlank(s) ==> forall i :: 0 <= i < r ==> IsIndentChar(s[i])
  {
    if TrimSpace(s) == "" then BlankIndent
    else
      IndentBlank(s);
      LeadingIndent(s)
  }

  /** A line of nothing but spaces and tabs is blank. */
  lemma IndentBlank(s: string)
    ensures LeadingIndent(s) == |s| ==> IsBlank(s)
  {
    if LeadingIndent(s) == |s| {
      IndentRun(s, 0);
    }
  }

  /** From s[i] on, a run of spaces and tabs is all white space. */
  lemma {:induction false} IndentRun(s: string, i: nat)
    requires i <= |s| && forall k :: i <= k < |s| ==> IsIndentChar(s[k])
    ensures LeftCut(s, i) == |s|
    decreases |s| - i
  {
    if i < |s| {
      IndentRun(s, i + 1);
    }
  }

  // ---------------------------------------------------------------------
  // Go's byte-wise string ordering.

  /** a < b for Go strings: lexicographic on bytes. */
  predicate Less(a: string, b: string)
    decreases |a|
  {
    |b| > 0 && (|a| == 0 || a[0] < b[0] || (a[0] == b[0] && Less(a[1..], b[1..])))
  }

  lemma {:induction false} LessIrreflexive(a: string)
    ensures !Less(a, a)
    decreases |a|
  {
    if |a| > 0 {
      LessIrreflexive(a[1..]);
    }
  }

  lemma {:induction false} LessTransitive(a: string, b: string, c: string)
    requires Less(a, b) && Less(b, c)
    ensures Less(a, c)
    decreases |a|
  {
    if |a| > 0 && a[0] == b[0] && b[0] == c[0] {
      LessTransitive(a[1..], b[1..], c[1..]);
    }
  }

  lemma {:induction false} LessTotal(a: string, b: string)
    ensures a == b || Less(a, b) || Less(b, a)
    decreases |a|
  {
    if |a| > 0 && |b| > 0 && a[0] == b[0] {
      LessTotal(a[1..], b[1..]);
      if a[1..] == b[1..] {
        assert a == [a[0]] + a[1..] && b == [b[0]] + b[1..];
      }
    }
  }

  lemma LessAsymmetric(a: string, b: string)
    requires Less(a, b)
    ensures !Less(b, a) && a != b
  {
    if Less(b, a) {
      LessTransitive(a, b, a);
      LessIrreflexive(a);
    }
    if a == b {
      LessIrreflexive(a);
    }
  }

  // ---------------------------------------------------------------------
  // strconv.Itoa for non-negative numbers.

  function DigitChar(d: nat): (c: char)
    requires d < 10
    ensures IsDigit(c)
  {
    ['0', '1', '2', '3', '4', '5', '6', '7', '8', '9'][d]
  }

  /** The decimal digits of n, without leading zeros. */
  function Itoa(n: nat): (r: string)
    ensures |r| >= 1
    ensures forall i :: 0 <= i < |r| ==> IsDigit(r[i])
    ensures |r| > 1 ==> r[0] != '0'
  {
    if n < 10 then [DigitChar(n)]
    else
      var r := Itoa(n / 10) + [DigitChar(n % 10)];
      assert r[0] == Itoa(n / 10)[0];
      r
  }
}
