/**
 * The in-tree copy of the any-format reader (src/anyreader/mod.rs):
 * `peek_upto` over a peekable reader.
 */
module AnyReader {
  import opened Base

  /**
   * A peekable reader: the bytes it has buffered ahead (what `get_ref().0`
   * exposes) and the bytes still in the underlying stream.
   */
  datatype Peekable = Peekable(buffered: seq<byte>, rest: seq<byte>)
  {
    /** Everything a reader of this stream will see, in order. */
    function Stream(): seq<byte> { buffered + rest }
  }

  /**
   * `peek_upto::<N>`: at most N bytes from the front of the buffer,
   * the whole buffer when it is shorter. The reader is only looked at.
   */
  function PeekUpto(n: nat, reader: Peekable): (r: seq<byte>)
    ensures |r| == Min(n, |reader.buffered|)
    ensures r == reader.buffered[..|r|]
    ensures r == reader.Stream()[..|r|]
  {
    reader.buffered[..Min(n, |reader.buffered|)]
  }

  /** A short buffer is returned whole; a long one is cut at N. */
  lemma PeekUptoCases(n: nat, reader: Peekable)
    ensures |reader.buffered| <= n ==> PeekUpto(n, reader) == reader.buffered
    ensures n < |reader.buffered| ==> |PeekUpto(n, reader)| == n
  {
  }
}
