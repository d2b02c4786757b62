/**
 * internal/edtextar: the text archive the CLI prints dumps in. Keys have
 * their newlines escaped as the two chars backslash and n; the caller
 * picks the separator char.
 */
module EdTextar {
  import opened Text
  import opened KeyValue
  import opened Archive

  /** The key as written: every newline becomes backslash, n. */
  function EncodeKey(k: string): (r: string)
    ensures '\n' !in r
    ensures '\n' !in k ==> r == k
  {
    ReplaceChar(k, '\n', "\\n")
  }

  /** The pairs as written: keys encoded, values untouched. */
  function EncodeKeys(kvs: seq<KV>): (r: seq<KV>)
    ensures |r| == |kvs|
    ensures forall i :: 0 <= i < |kvs| ==> r[i] == KV(EncodeKey(kvs[i].k), kvs[i].v)
    ensures FlatKeys(r)
  {
    seq(|kvs|, i requires 0 <= i < |kvs| => KV(EncodeKey(kvs[i].k), kvs[i].v))
  }

  /** Format: the archive of kvs under a separator of sepch chars. */
  function Format(kvs: seq<KV>, sepch: char): (ar: string)
    ensures ar == "" <==> |kvs| == 0
  {
    Write(EncodeKeys(kvs), Separator(kvs, sepch))
  }

  /** Parse: the entries of ar appended to dst; a text without a space adds nothing. */
  function Parse(dst: seq<KV>, ar: string): (r: seq<KV>)
    ensures |r| >= |dst| && r[..|dst|] == dst
    ensures ' ' !in ar ==> r == dst
  {
    var r := Read(dst, ar);
    assert ' ' !in ar ==> Cut(ar, " ").None? by {
      if Cut(ar, " ").Some? {
        var p := Cut(ar, " ").value;
        assert ar[|p.0|] == ' ';
      }
    }
    r
  }

  /** The separator chosen for kvs also clears the encoded pairs, whose values are the same. */
  lemma EncodedClear(kvs: seq<KV>, c: char)
    requires c != '\n'
    ensures Clear(EncodeKeys(kvs), c, SepLength(kvs, c))
  {
    SeparatorClear(kvs, c);
    var r := EncodeKeys(kvs);
    assert forall i :: 0 <= i < |kvs| ==> r[i].v == kvs[i].v;
  }

  /**
   * Parsing a formatted archive gives back every pair, with its key as
   * encoded, after what dst held, for any separator char but space and
   * newline.
   */
  lemma FormatParse(dst: seq<KV>, kvs: seq<KV>, sepch: char)
    requires sepch != '\n' && sepch != ' '
    ensures Parse(dst, Format(kvs, sepch)) == dst + EncodeKeys(kvs)
  {
    EncodedClear(kvs, sepch);
    ReadWrite(dst, EncodeKeys(kvs), sepch, SepLength(kvs, sepch));
  }

  /** Keys without newlines come back exactly. */
  lemma RoundTrip(kvs: seq<KV>, sepch: char)
    requires sepch != '\n' && sepch != ' ' && FlatKeys(kvs)
    ensures Parse([], Format(kvs, sepch)) == kvs
  {
    FormatParse([], kvs, sepch);
    assert EncodeKeys(kvs) == kvs;
  }

  /** The escape is lossy: a key with a newline and one with backslash, n are written alike. */
  lemma EscapeCollides()
    ensures EncodeKey("a\nb") == EncodeKey("a\\nb") == "a\\nb"
  {
    var nl, bs := "a\nb", "a\\nb";
    assert ReplaceChar(nl[2..], '\n', "\\n") == "b";
    assert ReplaceChar(nl[1..], '\n', "\\n") == "\\nb";
    assert ReplaceChar(bs[3..], '\n', "\\n") == "b";
    assert ReplaceChar(bs[2..], '\n', "\\n") == "nb";
    assert ReplaceChar(bs[1..], '\n', "\\n") == "\\nb";
  }

  /** So a key with a newline comes back escaped. */
  lemma NewlineKeyEscaped()
    ensures Parse([], Format([KV("a\nb", "")], '=')) == [KV("a\\nb", "")]
  {
    var kvs := [KV("a\nb", "")];
    FormatParse([], kvs, '=');
    EscapeCollides();
    assert EncodeKeys(kvs)[0] == KV("a\\nb", "");
  }
}
