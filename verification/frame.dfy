/**
 * The effdump0 file format that internal/effect and internal/marshal both
 * implement:
 *
 *   "effdump0" | 4-byte little-endian stream length | compressed stream
 *
 * where the stream is every entry in turn as a 2-byte little-endian key
 * length, a 4-byte little-endian value length, the key and the value.
 * Compression is a parameter: the model only assumes that decompressing
 * what was compressed gives it back.
 */
module Frame {
  import opened Wrappers
  import opened Text
  import opened KeyValue

  const Magic: string := "effdump0"

  /** Keys must be shorter than 1 << 15 bytes. */
  const KeyLimit: nat := 0x8000

  /** The stream may be at most 1 << 30 bytes. */
  const SizeLimit: nat := 0x4000_0000

  // ---------------------------------------------------------------------
  // Little-endian numbers.

  function Byte(n: nat): (c: char)
    requires n < 256
    ensures ByteOf(c) == n
  {
    n as char
  }

  function LE16(n: nat): (r: string)
    requires n < 0x1_0000
    ensures |r| == 2
  {
    [Byte(n % 256), Byte(n / 256)]
  }

  function LE32(n: nat): (r: string)
    requires n < 0x1_0000_0000
    ensures |r| == 4
  {
    LE16(n % 0x1_0000) + LE16(n / 0x1_0000)
  }

  /** binary.LittleEndian.Uint16: the first two bytes of s. */
  function U16(s: string): (n: nat)
    requires |s| >= 2
    ensures n < 0x1_0000
  {
    ByteOf(s[0]) + 256 * ByteOf(s[1])
  }

  /** binary.LittleEndian.Uint32: the first four bytes of s. */
  function U32(s: string): (n: nat)
    requires |s| >= 4
    ensures n < 0x1_0000_0000
  {
    U16(s) + 0x1_0000 * U16(s[2..])
  }

  /** The first four bytes of s read into an int32. */
  function I32(s: string): (n: int)
    requires |s| >= 4
    ensures -0x8000_0000 <= n < 0x8000_0000
    ensures U32(s) < 0x8000_0000 ==> n == U32(s)
  {
    var u := U32(s);
    if u >= 0x8000_0000 then u - 0x1_0000_0000 else u
  }

  lemma U16LE16(n: nat)
    requires n < 0x1_0000
    ensures U16(LE16(n)) == n
  {
  }

  lemma U32LE32(n: nat)
    requires n < 0x1_0000_0000
    ensures U32(LE32(n)) == n
  {
    var s := LE32(n);
    assert s[2..] == LE16(n / 0x1_0000);
    U16LE16(n % 0x1_0000);
    U16LE16(n / 0x1_0000);
  }

  // ---------------------------------------------------------------------
  // The uncompressed stream.

  /** Every key and value fits its length field as Marshal writes it. */
  predicate Fits(es: seq<KV>) {
    forall i :: 0 <= i < |es| ==> |es[i].k| < KeyLimit && |es[i].v| <= SizeLimit
  }

  /**
   * One entry: key length, value length, key, value. The lengths go
   * through int16 and int32, which keep their low 16 and 32 bits.
   */
  function EncodeEntry(e: KV): (r: string)
    ensures |r| == 6 + |e.k| + |e.v|
  {
    LE16(|e.k| % 0x1_0000) + LE32(|e.v| % 0x1_0000_0000) + e.k + e.v
  }

  /** dumplen: 6 bytes per entry plus every key and value. */
  function DumpLen(es: seq<KV>): (n: nat)
    ensures n >= 6 * |es|
    decreases |es|
  {
    if |es| == 0 then 0 else 6 + |es[0].k| + |es[0].v| + DumpLen(es[1..])
  }

  /** The uncompressed stream of es. */
  function Stream(es: seq<KV>): (r: string)
    ensures |r| == DumpLen(es)
    decreases |es|
  {
    if |es| == 0 then "" else EncodeEntry(es[0]) + Stream(es[1..])
  }

  /** Each key comes after the one before it, the first after last. */
  predicate Follows(last: string, es: seq<KV>)
    decreases |es|
  {
    |es| == 0 || (Less(last, es[0].k) && Follows(es[0].k, es[1..]))
  }

  /** Follows is the neighbour-by-neighbour order check of the source's loops. */
  lemma {:induction false} FollowsNeighbours(last: string, es: seq<KV>)
    ensures Follows(last, es) <==>
      && (|es| > 0 ==> Less(last, es[0].k))
      && forall i :: 0 < i < |es| ==> Less(es[i - 1].k, es[i].k)
    decreases |es|
  {
    if |es| > 0 {
      FollowsNeighbours(es[0].k, es[1..]);
      assert forall i :: 0 < i < |es| ==> es[1..][i - 1] == es[i];
    }
  }

  lemma FollowsTail(last: string, es: seq<KV>)
    requires |es| > 0 && Follows(last, es)
    ensures Less(last, es[0].k) && Follows(es[0].k, es[1..])
  {
  }

  lemma FollowsCons(last: string, e: KV, es: seq<KV>)
    requires Less(last, e.k) && Follows(e.k, es)
    ensures Follows(last, [e] + es)
  {
    assert ([e] + es)[1..] == es;
  }

  lemma FitsTail(es: seq<KV>)
    requires |es| > 0 && Fits(es)
    ensures |es[0].k| < KeyLimit && |es[0].v| <= SizeLimit && Fits(es[1..])
  {
    assert forall i :: 0 < i < |es| ==> es[1..][i - 1] == es[i];
  }

  // ---------------------------------------------------------------------
  // Splitting the stream into entries.

  /** Why a dump does not decode. */
  datatype UnmarshalError =
    | BadHeader
    | NegativeSize(size: int)
    | Uncompress
    | SizeMismatch(copied: nat, size: int)
    | TooLarge(at: nat)
    | Unsorted(index: nat)
    | Incomplete

  /**
   * One turn of the split loop, o bytes into the stream, on what is left
   * of it: a 2-byte key length and a 4-byte value length, then key and
   * value, which must fit in what is left. Gives the entry and the bytes
   * it takes.
   */
  function Head(s: string, o: nat): (r: Result<(KV, nat), UnmarshalError>)
    requires |s| >= 6
    ensures r.Ok? ==> 6 <= r.value.1 <= |s| && r.value.1 == 6 + |r.value.0.k| + |r.value.0.v|
    ensures r.Err? ==> r.error == TooLarge(o)
  {
    var keysz, valuesz := U16(s), U32(s[2..]);
    if 6 + keysz + valuesz > |s| then Err(TooLarge(o))
    else Ok((KV(s[6..6 + keysz], s[6 + keysz..6 + keysz + valuesz]), 6 + keysz + valuesz))
  }

  /**
   * The split loop on the rest s of the stream, o bytes in, with the
   * entries so far in acc and the last key in last: entries until the
   * stream ends, an error when a partial entry is left over. With ordered
   * set every key must be above the one before it, as in internal/effect.
   */
  function Unstream(s: string, ordered: bool, o: nat, acc: seq<KV>, last: string): Result<seq<KV>, UnmarshalError>
    decreases |s|
  {
    if |s| < 6 then (if |s| != 0 then Err(Incomplete) else Ok(acc))
    else
      match Head(s, o)
      case Err(err) => Err(err)
      case Ok((e, n)) =>
        if ordered && !Less(last, e.k) then Err(Unsorted(|acc|))
        else Unstream(s[n..], ordered, o + n, acc + [e], e.k)
  }

  /**
   * What the loop returns extends the entries it started with; with
   * ordered set, the entries it adds each come after the one before.
   */
  lemma UnstreamKeeps(s: string, ordered: bool, o: nat, acc: seq<KV>, last: string)
    ensures var r := Unstream(s, ordered, o, acc, last);
      && (r.Ok? ==> |r.value| >= |acc| && r.value[..|acc|] == acc && (ordered ==> Follows(last, r.value[|acc|..])))
      && (r.Err? && r.error.Unsorted? ==> ordered)
  {
    UnstreamExtends(s, ordered, o, acc, last);
    UnstreamUnsorted(s, ordered, o, acc, last);
  }

  lemma {:induction false} UnstreamExtends(s: string, ordered: bool, o: nat, acc: seq<KV>, last: string)
    ensures var r := Unstream(s, ordered, o, acc, last);
      r.Ok? ==> |r.value| >= |acc| && r.value[..|acc|] == acc && (ordered ==> Follows(last, r.value[|acc|..]))
    decreases |s|
  {
    if |s| >= 6 && Head(s, o).Ok? {
      var e, n := Head(s, o).value.0, Head(s, o).value.1;
      if !(ordered && !Less(last, e.k)) {
        var r := UnstreamOn(s, ordered, o, acc, last, e, n);
        UnstreamExtends(s[n..], ordered, o + n, acc + [e], e.k);
        UnstreamShape(r, acc, e, last, ordered);
      }
    }
  }

  lemma {:induction false} UnstreamUnsorted(s: string, ordered: bool, o: nat, acc: seq<KV>, last: string)
    ensures var r := Unstream(s, ordered, o, acc, last);
      r.Err? && r.error.Unsorted? ==> ordered
    decreases |s|
  {
    if |s| >= 6 && Head(s, o).Ok? {
      var e, n := Head(s, o).value.0, Head(s, o).value.1;
      if !(ordered && !Less(last, e.k)) {
        var r := UnstreamOn(s, ordered, o, acc, last, e, n);
        UnstreamUnsorted(s[n..], ordered, o + n, acc + [e], e.k);
      }
    }
  }

  /** One entry read: the loop goes on from the rest of the stream. */
  lemma UnstreamOn(s: string, ordered: bool, o: nat, acc: seq<KV>, last: string, e: KV, n: nat)
      returns (r: Result<seq<KV>, UnmarshalError>)
    requires |s| >= 6 && Head(s, o) == Ok((e, n)) && !(ordered && !Less(last, e.k))
    ensures n <= |s| && r == Unstream(s[n..], ordered, o + n, acc + [e], e.k)
    ensures Unstream(s, ordered, o, acc, last) == r
  {
    r := Unstream(s[n..], ordered, o + n, acc + [e], e.k);
  }

  lemma UnstreamShape(r: Result<seq<KV>, UnmarshalError>, acc: seq<KV>, e: KV, last: string, ordered: bool)
    requires r.Ok? ==> |r.value| >= |acc| + 1 && r.value[..|acc| + 1] == acc + [e]
    requires r.Ok? && ordered ==> Follows(e.k, r.value[|acc| + 1..]) && Less(last, e.k)
    ensures r.Ok? ==> |r.value| >= |acc| && r.value[..|acc|] == acc
    ensures r.Ok? && ordered ==> Follows(last, r.value[|acc|..])
  {
    if r.Ok? {
      var es := r.value;
      assert es[..|acc|] == es[..|acc| + 1][..|acc|];
      assert es[|acc|] == e;
      if ordered {
        assert es[|acc|..] == [e] + es[|acc| + 1..];
        FollowsCons(last, e, es[|acc| + 1..]);
      }
    }
  }

  /** The stream of entries that fit, and follow last when ordered, splits back into them. */
  lemma UnstreamStream(es: seq<KV>, ordered: bool, o: nat, acc: seq<KV>, last: string)
    requires Fits(es) && (ordered ==> Follows(last, es))
    ensures Unstream(Stream(es), ordered, o, acc, last) == Ok(acc + es)
  {
    UnstreamFrom(es, ordered, o, acc, last, Stream(es));
  }

  lemma UnstreamFrom(es: seq<KV>, ordered: bool, o: nat, acc: seq<KV>, last: string, s: string)
    requires Fits(es) && (ordered ==> Follows(last, es)) && s == Stream(es)
    ensures Unstream(s, ordered, o, acc, last) == Ok(acc + es)
  {
    if ordered {
      OrderedFrom(es, o, acc, last, s);
    } else {
      UnorderedFrom(es, o, acc, last, s);
    }
  }

  lemma {:induction false} UnorderedFrom(es: seq<KV>, o: nat, acc: seq<KV>, last: string, s: string)
    requires Fits(es) && s == Stream(es)
    ensures Unstream(s, false, o, acc, last) == Ok(acc + es)
    decreases |es|
  {
    if |es| == 0 {
      UnstreamEmpty(es, false, o, acc, last, s);
    } else {
      FitsTail(es);
      var e, t := es[0], Stream(es[1..]);
      UnorderedFrom(es[1..], o + 6 + |e.k| + |e.v|, acc + [e], e.k, t);
      UnstreamNext(es, false, o, acc, last, s, t);
    }
  }

  lemma {:induction false} OrderedFrom(es: seq<KV>, o: nat, acc: seq<KV>, last: string, s: string)
    requires Fits(es) && Follows(last, es) && s == Stream(es)
    ensures Unstream(s, true, o, acc, last) == Ok(acc + es)
    decreases |es|
  {
    if |es| == 0 {
      UnstreamEmpty(es, true, o, acc, last, s);
    } else {
      var e, t := es[0], Stream(es[1..]);
      OrderedTail(last, es);
      OrderedFrom(es[1..], o + 6 + |e.k| + |e.v|, acc + [e], e.k, t);
      UnstreamNext(es, true, o, acc, last, s, t);
    }
  }

  lemma OrderedTail(last: string, es: seq<KV>)
    requires |es| > 0 && Fits(es) && Follows(last, es)
    ensures |es[0].k| < KeyLimit && |es[0].v| <= SizeLimit && Less(last, es[0].k)
    ensures Fits(es[1..]) && Follows(es[0].k, es[1..])
  {
    FitsTail(es);
    FollowsTail(last, es);
  }

  lemma UnstreamEmpty(es: seq<KV>, ordered: bool, o: nat, acc: seq<KV>, last: string, s: string)
    requires |es| == 0 && s == Stream(es)
    ensures Unstream(s, ordered, o, acc, last) == Ok(acc + es)
  {
    assert acc + es == acc;
  }

  /** The first entry of a stream splits off, then the rest splits as it would alone. */
  lemma UnstreamNext(es: seq<KV>, ordered: bool, o: nat, acc: seq<KV>, last: string, s: string, t: string)
    requires |es| > 0 && |es[0].k| < KeyLimit && |es[0].v| <= SizeLimit && (ordered ==> Less(last, es[0].k))
    requires s == Stream(es) && t == Stream(es[1..])
    requires Unstream(t, ordered, o + 6 + |es[0].k| + |es[0].v|, acc + [es[0]], es[0].k) == Ok(acc + [es[0]] + es[1..])
    ensures Unstream(s, ordered, o, acc, last) == Ok(acc + es)
  {
    UnstreamCons(es, ordered, o, acc, last, s, t);
    ConsAppend(acc, es);
  }

  lemma UnstreamCons(es: seq<KV>, ordered: bool, o: nat, acc: seq<KV>, last: string, s: string, t: string)
    requires |es| > 0 && |es[0].k| < KeyLimit && |es[0].v| <= SizeLimit && (ordered ==> Less(last, es[0].k))
    requires s == Stream(es) && t == Stream(es[1..])
    ensures Unstream(s, ordered, o, acc, last) == Unstream(t, ordered, o + 6 + |es[0].k| + |es[0].v|, acc + [es[0]], es[0].k)
  {
    StreamCons(es);
    UnstreamFirst(es[0], t, ordered, o, acc, last);
  }

  lemma ConsAppend<T>(acc: seq<T>, es: seq<T>)
    requires |es| > 0
    ensures acc + [es[0]] + es[1..] == acc + es
  {
  }

  lemma StreamCons(es: seq<KV>)
    requires |es| > 0
    ensures Stream(es) == EncodeEntry(es[0]) + Stream(es[1..])
  {
  }

  /** The length fields of an encoded entry read back as the key and value lengths. */
  lemma EntryLengths(e: KV, rest: string)
    requires |e.k| < KeyLimit && |e.v| <= SizeLimit
    ensures var s := EncodeEntry(e) + rest; U16(s) == |e.k| && U32(s[2..]) == |e.v|
  {
    var s := EncodeEntry(e) + rest;
    assert |e.k| % 0x1_0000 == |e.k| && |e.v| % 0x1_0000_0000 == |e.v|;
    assert s[..2] == LE16(|e.k|);
    assert s[2..][..4] == LE32(|e.v|);
    U16LE16(|e.k|);
    U32LE32(|e.v|);
    assert U16(s) == U16(s[..2]);
    assert U32(s[2..]) == U32(s[2..][..4]);
  }

  /** The head of an encoded entry is that entry. */
  lemma HeadEntry(e: KV, rest: string, o: nat)
    requires |e.k| < KeyLimit && |e.v| <= SizeLimit
    ensures Head(EncodeEntry(e) + rest, o) == Ok((e, 6 + |e.k| + |e.v|))
  {
    var s := EncodeEntry(e) + rest;
    EntryLengths(e, rest);
    assert s[6..6 + |e.k|] == e.k;
    assert s[6 + |e.k|..6 + |e.k| + |e.v|] == e.v;
  }

  /** One entry in front of the rest of a stream is split off whole. */
  lemma UnstreamFirst(e: KV, rest: string, ordered: bool, o: nat, acc: seq<KV>, last: string)
    requires |e.k| < KeyLimit && |e.v| <= SizeLimit && (ordered ==> Less(last, e.k))
    ensures Unstream(EncodeEntry(e) + rest, ordered, o, acc, last)
         == Unstream(rest, ordered, o + 6 + |e.k| + |e.v|, acc + [e], e.k)
  {
    var s := EncodeEntry(e) + rest;
    HeadEntry(e, rest, o);
    assert s[6 + |e.k| + |e.v|..] == rest;
  }

  /**
   * The split loop as written: the value length is read with Uint16 from
   * its 4-byte field, and the bound check leaves out the 6 header bytes,
   * so slicing the entry can run past the end of the stream, which makes
   * Go panic.
   */
  datatype Outcome = Parsed(es: seq<KV>) | Rejected(error: UnmarshalError) | Panicked(at: nat)

  function UnstreamAsWritten(s: string, ordered: bool, o: nat, acc: seq<KV>, last: string): (r: Outcome)
    ensures r.Parsed? ==> |r.es| >= |acc| && r.es[..|acc|] == acc
    decreases |s|
  {
    if |s| < 6 then (if |s| != 0 then Rejected(Incomplete) else Parsed(acc))
    else
      var keysz, valuesz := U16(s), U16(s[2..]);
      if keysz + valuesz > |s| then Rejected(TooLarge(o))
      else if 6 + keysz + valuesz > |s| then Panicked(o)
      else
        var e := KV(s[6..6 + keysz], s[6 + keysz..6 + keysz + valuesz]);
        if ordered && !Less(last, e.k) then Rejected(Unsorted(|acc|))
        else
          var r := UnstreamAsWritten(s[6 + keysz + valuesz..], ordered, o + 6 + keysz + valuesz, acc + [e], e.k);
          assert r.Parsed? ==> r.es[..|acc|] == r.es[..|acc| + 1][..|acc|];
          r
  }

  /**
   * A value of 1 << 16 bytes has a length field whose low 16 bits are 0:
   * the loop as written reads the entry with an empty value, so the
   * stream never splits back into its one entry.
   */
  lemma LongValueMisread(k: string, v: string, ordered: bool)
    requires 0 < |k| < KeyLimit && |v| == 0x1_0000
    ensures UnstreamAsWritten(Stream([KV(k, v)]), ordered, 0, [], "") != Parsed([KV(k, v)])
  {
    var e := KV(k, v);
    var s := Stream([e]);
    MisreadHeader(k, v, s);
    assert Less("", k);
    var r := UnstreamAsWritten(s[6 + |k| + 0..], ordered, 0 + 6 + |k| + 0, [] + [KV(k, "")], k);
    assert UnstreamAsWritten(s, ordered, 0, [], "") == r;
    assert r.Parsed? ==> r.es[0] == KV(k, "");
  }

  /** The header of that one entry reads as the key length and an empty value. */
  lemma MisreadHeader(k: string, v: string, s: string)
    requires 0 < |k| < KeyLimit && |v| == 0x1_0000 && s == Stream([KV(k, v)])
    ensures |s| >= 6 + |k| && U16(s) == |k| && U16(s[2..]) == 0
    ensures s[6..6 + |k|] == k && s[6 + |k|..6 + |k|] == ""
  {
    LongEntryLayout(k, v, s);
    HeaderFields(s, LE16(|k|), LE16(0), LE16(1), k, v);
    U16LE16(|k|);
    U16LE16(0);
  }

  /** The one entry's bytes: the key length, a value length of 1 << 16, the key, the value. */
  lemma LongEntryLayout(k: string, v: string, s: string)
    requires 0 < |k| < KeyLimit && |v| == 0x1_0000 && s == Stream([KV(k, v)])
    ensures s == LE16(|k|) + LE16(0) + LE16(1) + k + v
  {
    var e := KV(k, v);
    assert [e][1..] == [];
    assert s == EncodeEntry(e);
    assert |k| % 0x1_0000 == |k|;
    assert LE32(|v| % 0x1_0000_0000) == LE16(0) + LE16(1);
  }

  /** Reading the fields of an entry laid out as h1, h2, h3, the key and the value. */
  lemma HeaderFields(s: string, h1: string, h2: string, h3: string, k: string, v: string)
    requires |h1| == |h2| == |h3| == 2 && s == h1 + h2 + h3 + k + v
    ensures |s| >= 6 + |k| && U16(s) == U16(h1) && U16(s[2..]) == U16(h2)
    ensures s[6..6 + |k|] == k && s[6 + |k|..6 + |k|] == ""
  {
    assert s[2..][0] == h2[0] && s[2..][1] == h2[1];
    assert s[6..6 + |k|] == k;
  }

  /** The corrected loop reads the same stream back whole. */
  lemma LongValueRead(k: string, v: string, ordered: bool)
    requires 0 < |k| < KeyLimit && |v| == 0x1_0000
    ensures Unstream(Stream([KV(k, v)]), ordered, 0, [], "") == Ok([KV(k, v)])
  {
    var e := KV(k, v);
    assert Follows("", [e]);
    UnstreamStream([e], ordered, 0, [], "");
    assert [] + [e] == [e];
  }

  /** Six bytes: an empty key and a one-byte value that is missing. */
  const TruncatedEntry: string := [0 as char, 0 as char, 1 as char, 0 as char, 0 as char, 0 as char]

  /**
   * An entry header that promises one value byte with nothing after it:
   * the check as written lets it through and the slice panics, where the
   * corrected check reports the entry as too large.
   */
  lemma ShortEntryPanics(ordered: bool)
    ensures UnstreamAsWritten(TruncatedEntry, ordered, 0, [], "") == Panicked(0)
    ensures Unstream(TruncatedEntry, ordered, 0, [], "") == Err(TooLarge(0))
  {
    var s := TruncatedEntry;
    assert U16(s) == 0;
    assert U16(s[2..]) == 1;
    assert U32(s[2..]) == 1;
  }

  // ---------------------------------------------------------------------
  // The file around the stream.

  /** The compressor: what Unmarshal decompresses, None on a read error. */
  datatype Codec = Codec(compress: string -> string, decompress: string -> Option<string>)

  /** Decompressing what was compressed gives it back. */
  ghost predicate Sound(c: Codec) {
    forall s :: c.decompress(c.compress(s)) == Some(s)
  }

  /** A file around the stream s: magic, the stream's length as int32, the compressed stream. */
  function Wrap(c: Codec, s: string): (data: string)
    requires |s| <= SizeLimit
    ensures |data| >= 12 && data[..8] == Magic && data[8..12] == LE32(|s|)
  {
    Magic + LE32(|s|) + c.compress(s)
  }

  /** The file Marshal writes once the checks pass. */
  function Pack(c: Codec, es: seq<KV>): (data: string)
    requires DumpLen(es) <= SizeLimit
    ensures |data| >= 12 && data[..8] == Magic && data[8..12] == LE32(DumpLen(es))
  {
    Wrap(c, Stream(es))
  }

  /**
   * The uncompressed stream of a file, checked against its header: the
   * magic, a non-negative int32 size (0 when the file ends first, as the
   * failed read leaves it), a decompression that succeeds and yields
   * exactly that many bytes.
   */
  function Unpack(c: Codec, data: string): (r: Result<string, UnmarshalError>)
    ensures r == Err(BadHeader) <==> |data| < 8 || data[..8] != Magic
  {
    if |data| < 8 || data[..8] != Magic then Err(BadHeader)
    else
      var rest := data[8..];
      var size := if |rest| >= 4 then I32(rest) else 0;
      var z := if |rest| >= 4 then rest[4..] else "";
      if size < 0 then Err(NegativeSize(size))
      else
        match c.decompress(z)
        case None => Err(Uncompress)
        case Some(s) => if |s| != size then Err(SizeMismatch(|s|, size)) else Ok(s)
  }

  /** Unpack takes off exactly what Wrap puts on. */
  lemma UnpackWrap(c: Codec, s: string)
    requires Sound(c) && |s| <= SizeLimit
    ensures Unpack(c, Wrap(c, s)) == Ok(s)
  {
    var data := Wrap(c, s);
    var rest := data[8..];
    assert rest[..4] == LE32(|s|);
    U32LE32(|s|);
    assert U32(rest) == U32(rest[..4]);
    assert rest[4..] == c.compress(s);
  }

  lemma UnpackPack(c: Codec, es: seq<KV>)
    requires Sound(c) && DumpLen(es) <= SizeLimit
    ensures Unpack(c, Pack(c, es)) == Ok(Stream(es))
  {
    UnpackWrap(c, Stream(es));
  }

  /** Unmarshal: the file's entries, or why it does not decode. */
  function Decode(c: Codec, data: string, ordered: bool): (r: Result<seq<KV>, UnmarshalError>)
    ensures r.Ok? && ordered ==> Follows("", r.value)
    ensures r.Err? && r.error.Unsorted? ==> ordered
    ensures (|data| < 8 || data[..8] != Magic) ==> r == Err(BadHeader)
  {
    var s :- Unpack(c, data);
    var r := Unstream(s, ordered, 0, [], "");
    UnstreamKeeps(s, ordered, 0, [], "");
    assert r.Ok? ==> r.value[0..] == r.value;
    r
  }

  /** Unmarshal as written, with the split loop as written. */
  function DecodeAsWritten(c: Codec, data: string, ordered: bool): (r: Outcome)
    ensures (|data| < 8 || data[..8] != Magic) ==> r == Rejected(BadHeader)
  {
    match Unpack(c, data)
    case Err(e) => Rejected(e)
    case Ok(s) => UnstreamAsWritten(s, ordered, 0, [], "")
  }

  /** Every file packed from entries that fit decodes back to them. */
  lemma DecodePack(c: Codec, es: seq<KV>, ordered: bool)
    requires Sound(c) && Fits(es) && DumpLen(es) <= SizeLimit
    requires ordered ==> Follows("", es)
    ensures Decode(c, Pack(c, es), ordered) == Ok(es)
  {
    UnpackPack(c, es);
    UnstreamStream(es, ordered, 0, [], "");
    assert [] + es == es;
  }

  /** The stream sizes bound every value. */
  lemma {:induction false} DumpLenBounds(es: seq<KV>)
    ensures forall i :: 0 <= i < |es| ==> 6 + |es[i].k| + |es[i].v| <= DumpLen(es)
    decreases |es|
  {
    if |es| > 0 {
      DumpLenBounds(es[1..]);
      assert forall i :: 0 < i < |es| ==> es[1..][i - 1] == es[i];
    }
  }

  // ---------------------------------------------------------------------
  // Marshal.

  /** Why Marshal refuses a list of entries. */
  datatype MarshalError = KeyTooLong(index: nat, head: string, length: nat) | NotSorted(index: nat) | TooBig(size: nat)

  /** How many bytes of a too-long key the error quotes. */
  const HeadLen: nat := 15

  /** Every key is shorter than the limit. */
  predicate ShortKeys(es: seq<KV>) {
    forall i :: 0 <= i < |es| ==> |es[i].k| < KeyLimit
  }

  /** What Marshal accepts: short keys, ascending from "" when ordered, and a stream within the limit. */
  predicate Valid(es: seq<KV>, ordered: bool) {
    ShortKeys(es) && (ordered ==> Follows("", es)) && DumpLen(es) <= SizeLimit
  }

  /** The key entry j is compared with: the one before it, or last for the first entry checked. */
  function Prior(es: seq<KV>, last: string, i: nat, j: nat): string
    requires i <= j < |es|
  {
    if j == i then last else es[j - 1].k
  }

  /**
   * e reports the first of es[i..] that fails the key checks: every entry
   * before it passes both, and it has a key of KeyLimit bytes or more
   * (quoted by its first HeadLen bytes and its length) or, when ordered,
   * a short key not above the one before it.
   */
  ghost predicate FirstBadKey(es: seq<KV>, ordered: bool, last: string, i: nat, e: MarshalError)
    requires i <= |es|
  {
    && !e.TooBig? && i <= e.index < |es|
    && ShortKeys(es[i..e.index]) && (ordered ==> Follows(last, es[i..e.index]))
    && (e.KeyTooLong? ==> e.length == |es[e.index].k| >= KeyLimit && e.head == es[e.index].k[..HeadLen])
    && (e.NotSorted? ==> ordered && |es[e.index].k| < KeyLimit && !Less(Prior(es, last, i, e.index), es[e.index].k))
  }

  /**
   * The check loop of Marshal from entry i on, last being the key before
   * it: the first entry whose key is too long or, when ordered, not above
   * the one before.
   */
  function Check(es: seq<KV>, ordered: bool, last: string, i: nat): (r: Option<MarshalError>)
    requires i <= |es|
    ensures r.None? <==> ShortKeys(es[i..]) && (ordered ==> Follows(last, es[i..]))
    ensures r.Some? ==> FirstBadKey(es, ordered, last, i, r.value)
    decreases |es| - i
  {
    if i == |es| then None
    else
      var r := if |es[i].k| >= KeyLimit then Some(KeyTooLong(i, es[i].k[..HeadLen], |es[i].k|))
        else if ordered && !Less(last, es[i].k) then Some(NotSorted(i))
        else Check(es, ordered, es[i].k, i + 1);
      CheckStep(es, ordered, last, i, |es|);
      assert es[i..i] == [];
      var j := if r.Some? && r.value.index > i then r.value.index else i + 1;
      CheckStep(es, ordered, last, i, j);
      r
  }

  lemma CheckStep(es: seq<KV>, ordered: bool, last: string, i: nat, j: nat)
    requires i < j <= |es|
    ensures ShortKeys(es[i..j]) <==> |es[i].k| < KeyLimit && ShortKeys(es[i + 1..j])
    ensures Follows(last, es[i..j]) <==> Less(last, es[i].k) && Follows(es[i].k, es[i + 1..j])
  {
    var t := es[i..j];
    assert t[1..] == es[i + 1..j];
    assert forall k :: 0 < k < |t| ==> t[k] == es[i + 1..j][k - 1];
  }

  /** Marshal: the checks, then the file. */
  function Encode(c: Codec, es: seq<KV>, ordered: bool): (r: Result<string, MarshalError>)
    ensures r.Ok? <==> Valid(es, ordered)
    ensures r.Err? && !r.error.TooBig? ==> FirstBadKey(es, ordered, "", 0, r.error)
    ensures r.Err? && r.error.TooBig? ==> r.error.size == DumpLen(es) > SizeLimit && ShortKeys(es)
  {
    match Check(es, ordered, "", 0)
    case Some(err) => assert es[0..] == es; Err(err)
    case None =>
      assert es[0..] == es;
      if DumpLen(es) > SizeLimit then Err(TooBig(DumpLen(es))) else Ok(Pack(c, es))
  }

  /** Whatever Marshal accepts, Unmarshal reads back. */
  lemma EncodeDecode(c: Codec, es: seq<KV>, ordered: bool)
    requires Sound(c) && Encode(c, es, ordered).Ok?
    ensures Decode(c, Encode(c, es, ordered).value, ordered) == Ok(es)
  {
    DumpLenBounds(es);
    assert es[0..] == es;
    DecodePack(c, es, ordered);
  }

  /** A value of 64 KiB survives Marshal and the corrected reader, but not the reader as written. */
  lemma LongValueLostAt(c: Codec, k: string, v: string, ordered: bool)
    requires Sound(c) && 0 < |k| < KeyLimit && |v| == 0x1_0000
    ensures Encode(c, [KV(k, v)], ordered).Ok?
    ensures Decode(c, Encode(c, [KV(k, v)], ordered).value, ordered) == Ok([KV(k, v)])
    ensures DecodeAsWritten(c, Encode(c, [KV(k, v)], ordered).value, ordered) != Parsed([KV(k, v)])
  {
    var es := [KV(k, v)];
    assert Follows("", es) by {
      assert es[1..] == [];
    }
    assert DumpLen(es) == 6 + |k| + |v| by {
      assert es[1..] == [];
    }
    EncodeDecode(c, es, ordered);
    UnpackPack(c, es);
    LongValueMisread(k, v, ordered);
  }

  lemma TruncatedEntryAt(c: Codec, ordered: bool)
    requires Sound(c)
    ensures DecodeAsWritten(c, Wrap(c, TruncatedEntry), ordered) == Panicked(0)
    ensures Decode(c, Wrap(c, TruncatedEntry), ordered) == Err(TooLarge(0))
  {
    UnpackWrap(c, TruncatedEntry);
    ShortEntryPanics(ordered);
  }
}
