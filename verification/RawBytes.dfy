/** The bytes of a file, which the log code keeps as 8-bit words, and the numbers the other codecs work on. */
module RawBytes {
  import opened ByteValues
  import Coding

  function Raw(b: Coding.Bytes): Bytes {
    seq(|b|, i requires 0 <= i < |b| => ByteFrom(b[i]))
  }

  function Cooked(w: Bytes): Coding.Bytes {
    seq(|w|, i requires 0 <= i < |w| => w[i] as nat)
  }

  lemma CookedRaw(b: Coding.Bytes)
    ensures Cooked(Raw(b)) == b
  {
  }
}
