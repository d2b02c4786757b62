/**
 * The 64-bit FNV-1 hash of Go's hash/fnv (`fnv.New64`), the fingerprint
 * both the diff engine and the CLI take of a byte stream.
 */
module Fnv {
  import Text

  const Offset: bv64 := 0xcbf2_9ce4_8422_2325
  const Prime: bv64 := 0x0000_0100_0000_01b3

  /** One byte of FNV-1: multiply, then xor. */
  function Step(h: bv64, c: char): bv64 {
    (h * Prime) ^ (Text.ByteOf(c) as bv64)
  }

  /** The state after writing s to a hash in state h. */
  function Feed(h: bv64, s: string): bv64
    decreases |s|
  {
    if |s| == 0 then h else Feed(Step(h, s[0]), s[1..])
  }

  /** Sum64 of a fresh hash that was fed s. */
  function Sum(s: string): bv64 {
    Feed(Offset, s)
  }

  /**
   * Writing a stream in pieces leaves the same state as writing it at once,
   * so a hash depends only on the concatenation of what was written.
   */
  lemma {:induction false} FeedAppend(h: bv64, a: string, b: string)
    ensures Feed(h, a + b) == Feed(Feed(h, a), b)
    decreases |a|
  {
    if |a| == 0 {
      assert a + b == b;
    } else {
      assert (a + b)[0] == a[0] && (a + b)[1..] == a[1..] + b;
      FeedAppend(Step(h, a[0]), a[1..], b);
    }
  }
}
