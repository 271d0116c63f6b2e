/** Bytes, 16-bit words, and overwriting part of a memory. */
module Bytes {

  type Byte = x: int | 0 <= x < 256

  type Word16 = x: int | 0 <= x < 0x1_0000

  /** Lower byte first. */
  function WordBytes(w: Word16): seq<Byte> {
    [w % 256, w / 256]
  }

  /** The lower byte first: the bytes of a word, and the word of two bytes. */
  lemma WordBytesExactly(w: Word16, b: seq<Byte>)
    ensures b == WordBytes(w) <==> |b| == 2 && w == b[0] as int + 256 * b[1] as int
  {
  }

  /** s with data put in place from index at on. */
  function Splice<T>(s: seq<T>, at: nat, data: seq<T>): (r: seq<T>)
    requires at + |data| <= |s|
    ensures |r| == |s|
    ensures forall i :: 0 <= i < |s| ==> r[i] == if at <= i < at + |data| then data[i - at] else s[i]
  {
    s[..at] + data + s[at + |data|..]
  }
}
