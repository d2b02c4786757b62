/**
 * internal/effect: Marshal and Unmarshal of an effdump0 file holding a
 * sorted list of effects. An effect is a key-value pair, KeyValue.KV.
 */
module Effect {
  import opened Wrappers
  import opened KeyValue
  import opened Frame

  /**
   * effect.Marshal: refuses a key of 32 KiB or more, a key not above the
   * one before it (the first against the empty key) and a stream over
   * 1 GiB, in that order; otherwise writes the file.
   */
  function Marshal(c: Codec, es: seq<KV>): (r: Result<string, MarshalError>)
    ensures r.Ok? <==> ShortKeys(es) && Follows("", es) && DumpLen(es) <= SizeLimit
    ensures r.Err? && !r.error.TooBig? ==> FirstBadKey(es, true, "", 0, r.error)
    ensures r.Err? && r.error.TooBig? ==> r.error.size == DumpLen(es) > SizeLimit
  {
    Encode(c, es, true)
  }

  /** effect.Unmarshal, with the corrected entry reader: the effects come out in ascending key order. */
  function Unmarshal(c: Codec, data: string): (r: Result<seq<KV>, UnmarshalError>)
    ensures r.Ok? ==> Follows("", r.value)
    ensures (|data| < 8 || data[..8] != Magic) ==> r == Err(BadHeader)
  {
    Decode(c, data, true)
  }

  /** effect.Unmarshal as written: value lengths read from two bytes, a bounds check without the header. */
  function UnmarshalAsWritten(c: Codec, data: string): (r: Outcome)
    ensures (|data| < 8 || data[..8] != Magic) ==> r == Rejected(BadHeader)
  {
    DecodeAsWritten(c, data, true)
  }

  /** Whatever Marshal writes, Unmarshal reads back. */
  lemma RoundTrip(c: Codec, es: seq<KV>)
    requires Sound(c) && Marshal(c, es).Ok?
    ensures Unmarshal(c, Marshal(c, es).value) == Ok(es)
  {
    EncodeDecode(c, es, true);
  }

  /**
   * A single effect with a 64 KiB value: Marshal accepts it and the
   * corrected Unmarshal reads it back, but Unmarshal as written does not.
   */
  lemma LongValueLost(c: Codec, k: string, v: string)
    requires Sound(c) && 0 < |k| < KeyLimit && |v| == 0x1_0000
    ensures Marshal(c, [KV(k, v)]).Ok?
    ensures Unmarshal(c, Marshal(c, [KV(k, v)]).value) == Ok([KV(k, v)])
    ensures UnmarshalAsWritten(c, Marshal(c, [KV(k, v)]).value) != Parsed([KV(k, v)])
  {
    LongValueLostAt(c, k, v, true);
  }

  /**
   * A stream of one six-byte header announcing a one-byte value that is
   * not there: as written the reader slices past the end; corrected it
   * reports the entry as too large.
   */
  lemma TruncatedEntryPanics(c: Codec)
    requires Sound(c)
    ensures UnmarshalAsWritten(c, Wrap(c, TruncatedEntry)) == Panicked(0)
    ensures Unmarshal(c, Wrap(c, TruncatedEntry)) == Err(TooLarge(0))
  {
    TruncatedEntryAt(c, true);
  }
}
