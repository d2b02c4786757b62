/**
 * The pure pieces of the CLI in internal/edmain/edmain.go: the name and
 * flag checks Run starts with, the key-glob pattern of MakeRE, and the
 * dump fingerprint of Hash.
 */
module EdMain {
  import opened Wrappers
  import opened Text
  import opened KeyValue
  import Fnv

  // ---------------------------------------------------------------------
  // isIdentifier.

  /**
   * The bytes UTF-8 needs for rune c. Here, unlike in the rest of the
   * model, a char is a whole rune: isIdentifier ranges over the runes of
   * its argument but limits its length in bytes.
   */
  function RuneLen(c: char): (n: nat)
    ensures 1 <= n <= 4
    ensures n == 1 <==> (c as int) < 0x80
  {
    if (c as int) < 0x80 then 1
    else if (c as int) < 0x800 then 2
    else if (c as int) < 0x1_0000 then 3
    else 4
  }

  /** len(v) of the UTF-8 encoding of the runes v. */
  function Utf8Len(v: string): (n: nat)
    ensures |v| <= n <= 4 * |v|
    decreases |v|
  {
    if |v| == 0 then 0 else RuneLen(v[0]) + Utf8Len(v[1..])
  }

  /** unicode.IsDigit(ch) || unicode.IsLetter(ch). */
  predicate Alnum(c: char) {
    IsDigit(c) || IsLetter(c)
  }

  /** A short alphanumeric identifier: 1 to 64 bytes, every rune a letter or digit. */
  predicate Identifier(v: string) {
    0 < Utf8Len(v) <= 64 && forall i :: 0 <= i < |v| ==> Alnum(v[i])
  }

  /** isIdentifier: the length check first, then one rune at a time. */
  method IsIdentifier(v: string) returns (ok: bool)
    ensures ok <==> Identifier(v)
  {
    var n := Utf8Len(v);
    if n == 0 || n > 64 {
      return false;
    }
    var i := 0;
    while i < |v|
      invariant 0 <= i <= |v|
      invariant forall j :: 0 <= j < i ==> Alnum(v[j])
    {
      if !Alnum(v[i]) {
        return false;
      }
      i := i + 1;
    }
    return true;
  }

  /**
   * An identifier is non-empty, at most 64 runes long, and holds no path
   * separator, dot or space, so it names a single file or directory.
   */
  lemma IdentifierIsFileName(v: string)
    requires Identifier(v)
    ensures 0 < |v| <= 64
    ensures '/' !in v && '\\' !in v && '.' !in v && ' ' !in v
  {
    assert forall c :: c in v ==> Alnum(c);
  }

  /** Names Run accepts. */
  lemma IdentifierAccepted()
    ensures Identifier("effdump") && Identifier("v2")
  {
  }

  /** Names Run refuses: empty, with a dash, a relative path. */
  lemma IdentifierRefused()
    ensures !Identifier("") && !Identifier("a-b") && !Identifier("../x")
  {
    assert !Alnum("a-b"[1]);
    assert !Alnum("../x"[0]);
  }

  /** More than 64 bytes is refused, whatever the runes. */
  lemma LongNameRefused(v: string)
    requires |v| > 64
    ensures !Identifier(v)
  {
  }

  /** A two-byte rune counts twice: 33 copies of 'é' are 66 bytes and refused. */
  lemma WideRunesCount(v: string)
    requires |v| == 33 && forall i :: 0 <= i < |v| ==> v[i] == 'é'
    ensures !Identifier(v)
  {
    WideLen(v);
  }

  lemma {:induction false} WideLen(v: string)
    requires forall i :: 0 <= i < |v| ==> 0x80 <= v[i] as int < 0x800
    ensures Utf8Len(v) == 2 * |v|
    decreases |v|
  {
    if |v| > 0 {
      WideLen(v[1..]);
    }
  }

  // ---------------------------------------------------------------------
  // The checks Run makes before anything else.

  /** Why Run stops before it reads or writes anything. */
  datatype RunError = BadName(name: string) | BadSepch(sepch: string) | BadVersion(version: string)

  /**
   * The checks at the top of Params.Run, in order: the dump's name, the
   * -sepch flag (exactly one byte), then the version string FetchVersion
   * returned. On success, the separator character the archive uses.
   *
   * The chars of name and version are runes, whose byte length Utf8Len
   * counts, since the source ranges over them rune by rune. The chars of
   * sepch are bytes: the source measures the flag with len and keeps its
   * first byte, so a multi-byte UTF-8 separator such as "é" is two chars
   * long here and rejected.
   */
  method Preflight(name: string, sepch: string, version: string) returns (r: Result<char, RunError>)
    ensures r.Ok? <==> Identifier(name) && |sepch| == 1 && Identifier(version)
    ensures r.Ok? ==> r.value == sepch[0]
    ensures r == Err(BadName(name)) <==> !Identifier(name)
    ensures r == Err(BadSepch(sepch)) <==> Identifier(name) && |sepch| != 1
  {
    var ok := IsIdentifier(name);
    if !ok {
      return Err(BadName(name));
    }
    if |sepch| != 1 {
      return Err(BadSepch(sepch));
    }
    ok := IsIdentifier(version);
    if !ok {
      return Err(BadVersion(version));
    }
    return Ok(sepch[0]);
  }

  // ---------------------------------------------------------------------
  // MakeRE.

  /** The bytes regexp.QuoteMeta escapes. */
  const Special: string := "\\.+*?()|[]{}^$"

  /** regexp.QuoteMeta: a backslash before every special byte. */
  function QuoteMeta(s: string): (r: string)
    ensures |s| <= |r| <= 2 * |s|
    decreases |s|
  {
    if |s| == 0 then ""
    else (if s[0] in Special then ['\\', s[0]] else [s[0]]) + QuoteMeta(s[1..])
  }

  /** strings.Join with a separator of any length. */
  function JoinWith(ss: seq<string>, sep: string): string
    decreases |ss|
  {
    if |ss| == 0 then ""
    else if |ss| == 1 then ss[0]
    else ss[0] + sep + JoinWith(ss[1..], sep)
  }

  /** Every piece quoted. */
  function Quoted(parts: seq<string>): (qs: seq<string>)
    ensures |qs| == |parts| && forall i :: 0 <= i < |parts| ==> qs[i] == QuoteMeta(parts[i])
  {
    seq(|parts|, i requires 0 <= i < |parts| => QuoteMeta(parts[i]))
  }

  /** One glob as a regular expression: the quoted pieces between the stars, joined by ".*". */
  function Alternative(glob: string): string {
    JoinWith(Quoted(Split(glob, '*')), ".*")
  }

  /** Every glob as a regular expression. */
  function Alternatives(globs: seq<string>): (alts: seq<string>)
    ensures |alts| == |globs| && forall i :: 0 <= i < |globs| ==> alts[i] == Alternative(globs[i])
  {
    seq(|globs|, i requires 0 <= i < |globs| => Alternative(globs[i]))
  }

  /** MakeRE: no globs match everything; otherwise "^(" + the alternatives joined by "|" + ")$". */
  function MakeRE(globs: seq<string>): (re: string)
    ensures re == "" <==> |globs| == 0
    ensures |globs| > 0 ==> |re| >= 4 && re[..2] == "^(" && re[|re| - 2..] == ")$"
  {
    if |globs| == 0 then ""
    else "^(" + Join(Alternatives(globs), '|') + ")$"
  }

  /**
   * Reads globs back from the body of a pattern: an escaped byte stands
   * for itself, ".*" for a star, a bare "|" ends a glob.
   */
  function Unglob(s: string, cur: string, acc: seq<string>): (r: seq<string>)
    ensures |r| >= |acc| + 1 && r[..|acc|] == acc
    decreases |s|
  {
    if |s| == 0 then acc + [cur]
    else if s[0] == '\\' && |s| >= 2 then Unglob(s[2..], cur + [s[1]], acc)
    else if s[0] == '.' && |s| >= 2 && s[1] == '*' then Unglob(s[2..], cur + "*", acc)
    else if s[0] == '|' then Unglob(s[1..], "", acc + [cur])
    else Unglob(s[1..], cur + [s[0]], acc)
  }

  /** The globs a pattern of MakeRE was made from. */
  function Globs(re: string): seq<string> {
    if |re| < 4 then [] else Unglob(re[2..|re| - 2], "", [])
  }

  /** Reading a quoted string reads the string. */
  lemma {:induction false} UnglobQuoted(p: string, rest: string, cur: string, acc: seq<string>)
    ensures Unglob(QuoteMeta(p) + rest, cur, acc) == Unglob(rest, cur + p, acc)
    decreases |p|
  {
    if |p| == 0 {
      assert QuoteMeta(p) + rest == rest;
      assert cur + p == cur;
    } else {
      var q := QuoteMeta(p[1..]) + rest;
      UnglobQuoted(p[1..], rest, cur + [p[0]], acc);
      assert cur + [p[0]] + p[1..] == cur + p;
      if p[0] in Special {
        assert QuoteMeta(p) + rest == ['\\', p[0]] + q;
        assert (['\\', p[0]] + q)[2..] == q;
      } else {
        assert QuoteMeta(p) + rest == [p[0]] + q;
        assert ([p[0]] + q)[1..] == q;
        assert p[0] != '\\' && p[0] != '.' && p[0] != '|';
      }
    }
  }

  /** Reading quoted pieces joined by ".*" reads the pieces joined by stars. */
  lemma {:induction false} UnglobPieces(parts: seq<string>, rest: string, cur: string, acc: seq<string>)
    requires |parts| >= 1
    ensures Unglob(JoinWith(Quoted(parts), ".*") + rest, cur, acc) == Unglob(rest, cur + Join(parts, '*'), acc)
    decreases |parts|
  {
    if |parts| == 1 {
      UnglobQuoted(parts[0], rest, cur, acc);
    } else {
      var tail := JoinWith(Quoted(parts[1..]), ".*") + rest;
      PiecesCons(parts, rest, tail);
      UnglobQuoted(parts[0], ".*" + tail, cur, acc);
      UnglobStar(tail, cur + parts[0], acc);
      UnglobPieces(parts[1..], rest, cur + parts[0] + "*", acc);
      JoinCons(parts, '*', cur);
    }
  }

  /** The quoted pieces of parts, joined, are the first one's, ".*", and the rest's. */
  lemma PiecesCons(parts: seq<string>, rest: string, tail: string)
    requires |parts| >= 2 && tail == JoinWith(Quoted(parts[1..]), ".*") + rest
    ensures JoinWith(Quoted(parts), ".*") + rest == QuoteMeta(parts[0]) + (".*" + tail)
  {
    var qs := Quoted(parts);
    assert Quoted(parts[1..]) == qs[1..];
  }

  /** ".*" reads as a star. */
  lemma UnglobStar(tail: string, cur: string, acc: seq<string>)
    ensures Unglob(".*" + tail, cur, acc) == Unglob(tail, cur + "*", acc)
  {
    assert (".*" + tail)[2..] == tail;
  }

  /** cur, the first string, c, and the rest joined: cur and all of them joined. */
  lemma JoinCons(ss: seq<string>, c: char, cur: string)
    requires |ss| >= 2
    ensures cur + ss[0] + [c] + Join(ss[1..], c) == cur + Join(ss, c)
  {
  }

  /** Reading one alternative reads its glob. */
  lemma UnglobAlternative(glob: string, rest: string, cur: string, acc: seq<string>)
    ensures Unglob(Alternative(glob) + rest, cur, acc) == Unglob(rest, cur + glob, acc)
  {
    UnglobPieces(Split(glob, '*'), rest, cur, acc);
    JoinSplit(glob, '*');
  }

  /** Reading alternatives joined by "|" reads their globs. */
  lemma {:induction false} UnglobAlternatives(globs: seq<string>, acc: seq<string>)
    requires |globs| >= 1
    ensures Unglob(Join(Alternatives(globs), '|'), "", acc) == acc + globs
    decreases |globs|
  {
    if |globs| == 1 {
      UnglobLast(globs, acc);
    } else {
      var tail := Join(Alternatives(globs[1..]), '|');
      AlternativesCons(globs, tail);
      UnglobAlternative(globs[0], "|" + tail, "", acc);
      UnglobBar(tail, globs[0], acc);
      UnglobAlternatives(globs[1..], acc + [globs[0]]);
      assert acc + [globs[0]] + globs[1..] == acc + globs;
    }
  }

  lemma UnglobLast(globs: seq<string>, acc: seq<string>)
    requires |globs| == 1
    ensures Unglob(Join(Alternatives(globs), '|'), "", acc) == acc + globs
  {
    UnglobAlternative(globs[0], "", "", acc);
    assert Alternative(globs[0]) + "" == Join(Alternatives(globs), '|');
    assert "" + globs[0] == globs[0];
    assert acc + [globs[0]] == acc + globs;
  }

  /** The alternatives joined are the first one's, "|", and the rest's. */
  lemma AlternativesCons(globs: seq<string>, tail: string)
    requires |globs| >= 2 && tail == Join(Alternatives(globs[1..]), '|')
    ensures Join(Alternatives(globs), '|') == Alternative(globs[0]) + ("|" + tail)
  {
    var alts := Alternatives(globs);
    assert Alternatives(globs[1..]) == alts[1..];
  }

  /** A bare "|" ends the glob read so far. */
  lemma UnglobBar(tail: string, glob: string, acc: seq<string>)
    ensures Unglob("|" + tail, "" + glob, acc) == Unglob(tail, "", acc + [glob])
  {
    assert ("|" + tail)[1..] == tail;
    assert "" + glob == glob;
  }

  /** MakeRE loses nothing: the globs can be read back from the pattern, so distinct glob lists give distinct patterns. */
  lemma MakeREGlobs(globs: seq<string>)
    ensures Globs(MakeRE(globs)) == globs
  {
    if |globs| > 0 {
      var body := Join(Alternatives(globs), '|');
      var re := MakeRE(globs);
      assert re[2..|re| - 2] == body;
      UnglobAlternatives(globs, []);
    }
  }

  /** A single glob without stars or special bytes becomes an anchored literal. */
  lemma MakeRELiteral(glob: string)
    requires forall i :: 0 <= i < |glob| ==> glob[i] !in Special
    ensures MakeRE([glob]) == "^(" + glob + ")$"
  {
    assert '*' !in glob by {
      assert '*' in Special;
    }
    SplitFree(glob, '*');
    assert QuoteMeta(glob) == glob by {
      QuoteMetaPlain(glob);
    }
  }

  lemma {:induction false} QuoteMetaPlain(s: string)
    requires forall i :: 0 <= i < |s| ==> s[i] !in Special
    ensures QuoteMeta(s) == s
    decreases |s|
  {
    if |s| > 0 {
      QuoteMetaPlain(s[1..]);
      assert s == [s[0]] + s[1..];
    }
  }

  // ---------------------------------------------------------------------
  // Hash.

  /** Hash: each key and each value written, in order, to one FNV-1 64 hash. */
  function HashFrom(h: bv64, kvs: seq<KV>): bv64
    decreases |kvs|
  {
    if |kvs| == 0 then h else HashFrom(Fnv.Feed(Fnv.Feed(h, kvs[0].k), kvs[0].v), kvs[1..])
  }

  function Hash(kvs: seq<KV>): bv64 {
    HashFrom(Fnv.Offset, kvs)
  }

  /** K1 V1 K2 V2 ...: every byte Hash writes, with nothing between them. */
  function Flat(kvs: seq<KV>): string
    decreases |kvs|
  {
    if |kvs| == 0 then "" else kvs[0].k + kvs[0].v + Flat(kvs[1..])
  }

  lemma {:induction false} HashFromFlat(h: bv64, kvs: seq<KV>)
    ensures HashFrom(h, kvs) == Fnv.Feed(h, Flat(kvs))
    decreases |kvs|
  {
    if |kvs| > 0 {
      var e := kvs[0];
      HashFromFlat(Fnv.Feed(Fnv.Feed(h, e.k), e.v), kvs[1..]);
      Fnv.FeedAppend(h, e.k, e.v);
      Fnv.FeedAppend(h, e.k + e.v, Flat(kvs[1..]));
    }
  }

  /** The hash is that of the concatenated keys and values: where one ends and the next begins is not hashed. */
  lemma HashFlat(kvs: seq<KV>)
    ensures Hash(kvs) == Fnv.Sum(Flat(kvs))
  {
    HashFromFlat(Fnv.Offset, kvs);
  }

  /** Dumps with the same concatenation have the same hash. */
  lemma HashDependsOnFlat(a: seq<KV>, b: seq<KV>)
    requires Flat(a) == Flat(b)
    ensures Hash(a) == Hash(b)
  {
    HashFlat(a);
    HashFlat(b);
  }

  /** Moving bytes between a key and its value does not change the hash: ("ab", "c") and ("a", "bc") collide. */
  lemma HashKeyValueBoundary(a: string, b: string, v: string)
    ensures Hash([KV(a + b, v)]) == Hash([KV(a, b + v)])
  {
    assert Flat([KV(a + b, v)]) == a + b + v + "";
    assert Flat([KV(a, b + v)]) == a + (b + v) + "";
    HashDependsOnFlat([KV(a + b, v)], [KV(a, b + v)]);
  }

  /** Splitting one entry into two does not change the hash: ("ab", "") and ("a", ""), ("b", "") collide. */
  lemma HashEntryBoundary(a: string, b: string)
    ensures Hash([KV(a + b, "")]) == Hash([KV(a, ""), KV(b, "")])
  {
    var two := [KV(a, ""), KV(b, "")];
    assert two[1..] == [KV(b, "")];
    assert [KV(b, "")][1..] == [];
    assert Flat([KV(b, "")]) == b + "" + "";
    assert Flat(two) == a + "" + Flat([KV(b, "")]);
    assert Flat([KV(a + b, "")]) == a + b + "" + "";
    assert Flat(two) == Flat([KV(a + b, "")]);
    HashDependsOnFlat([KV(a + b, "")], two);
  }
}
