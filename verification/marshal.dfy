/**
 * internal/marshal: the same effdump0 file as internal/effect, for a list
 * of entries whose order the writer does not check and the reader does
 * not demand. An entry is a key-value pair, KeyValue.KV.
 */
module Marshal {
  import opened Wrappers
  import opened KeyValue
  import opened Frame

  /** Entries.MarshalBinary: refuses a key of 32 KiB or more and a stream over 1 GiB, never the order. */
  function MarshalBinary(c: Codec, es: seq<KV>): (r: Result<string, MarshalError>)
    ensures r.Ok? <==> ShortKeys(es) && DumpLen(es) <= SizeLimit
    ensures r.Err? ==> !r.error.NotSorted?
    ensures r.Err? && !r.error.TooBig? ==> FirstBadKey(es, false, "", 0, r.error)
    ensures r.Err? && r.error.TooBig? ==> r.error.size == DumpLen(es) > SizeLimit
  {
    Encode(c, es, false)
  }

  /**
   * Entries.UnmarshalBinary, with the corrected entry reader: the new
   * entries, or why the file does not decode (the receiver then keeps
   * what it held).
   */
  function UnmarshalBinary(c: Codec, data: string): (r: Result<seq<KV>, UnmarshalError>)
    ensures r.Err? ==> !r.error.Unsorted?
    ensures (|data| < 8 || data[..8] != Magic) ==> r == Err(BadHeader)
  {
    Decode(c, data, false)
  }

  /** Entries.UnmarshalBinary as written: value lengths read from two bytes, a bounds check without the header. */
  function UnmarshalBinaryAsWritten(c: Codec, data: string): (r: Outcome)
    ensures (|data| < 8 || data[..8] != Magic) ==> r == Rejected(BadHeader)
  {
    DecodeAsWritten(c, data, false)
  }

  /** Whatever MarshalBinary writes, UnmarshalBinary reads back, in any order. */
  lemma RoundTrip(c: Codec, es: seq<KV>)
    requires Sound(c) && MarshalBinary(c, es).Ok?
    ensures UnmarshalBinary(c, MarshalBinary(c, es).value) == Ok(es)
  {
    EncodeDecode(c, es, false);
  }

  /** A 64 KiB value: written, read back by the corrected reader, lost by the reader as written. */
  lemma LongValueLost(c: Codec, k: string, v: string)
    requires Sound(c) && 0 < |k| < KeyLimit && |v| == 0x1_0000
    ensures MarshalBinary(c, [KV(k, v)]).Ok?
    ensures UnmarshalBinary(c, MarshalBinary(c, [KV(k, v)]).value) == Ok([KV(k, v)])
    ensures UnmarshalBinaryAsWritten(c, MarshalBinary(c, [KV(k, v)]).value) != Parsed([KV(k, v)])
  {
    LongValueLostAt(c, k, v, false);
  }

  /** A header announcing a missing one-byte value: a slice past the end as written, an error corrected. */
  lemma TruncatedEntryPanics(c: Codec)
    requires Sound(c)
    ensures UnmarshalBinaryAsWritten(c, Wrap(c, TruncatedEntry)) == Panicked(0)
    ensures UnmarshalBinary(c, Wrap(c, TruncatedEntry)) == Err(TooLarge(0))
  {
    TruncatedEntryAt(c, false);
  }
}
