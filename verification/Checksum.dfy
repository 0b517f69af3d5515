/** Checksums in files: bytes as machine words, and 32-bit words as bytes (util/coding.h). */
module Checksums {
  import opened Entries
  import Crc

  function Bits(data: Bytes): seq<bv8> {
    seq(|data|, i requires 0 <= i < |data| => data[i] as bv8)
  }

  function Fixed32(w: bv32): (r: Bytes)
    ensures |r| == 4
  {
    [Crc.Part(w, 0) as Byte, Crc.Part(w, 1) as Byte, Crc.Part(w, 2) as Byte, Crc.Part(w, 3) as Byte]
  }

  function Fixed32Of(b: Bytes): bv32
    requires |b| >= 4
  {
    Crc.Word(b[0] as bv8, b[1] as bv8, b[2] as bv8, b[3] as bv8)
  }

  lemma Fixed32RoundTrip(w: bv32)
    ensures Fixed32Of(Fixed32(w)) == w
  {
    BytesOfParts(w);
    PartsOfWord(w);
  }

  lemma BytesOfParts(w: bv32)
    ensures var b := Fixed32(w); forall i | 0 <= i < 4 :: b[i] as bv8 == Crc.Part(w, i)
  {
    ByteAndBack(Crc.Part(w, 0));
    ByteAndBack(Crc.Part(w, 1));
    ByteAndBack(Crc.Part(w, 2));
    ByteAndBack(Crc.Part(w, 3));
  }

  lemma ByteAndBack(b: bv8)
    ensures (b as Byte) as bv8 == b
  {
  }

  lemma PartsOfWord(w: bv32)
    ensures Crc.Word(Crc.Part(w, 0), Crc.Part(w, 1), Crc.Part(w, 2), Crc.Part(w, 3)) == w
  {
  }

  lemma Fixed32Front(word: Bytes, bytes: Bytes)
    requires |word| == 4 && word <= bytes
    ensures Fixed32Of(bytes) == Fixed32Of(word)
  {
    hide Crc.Word;
    assert forall i | 0 <= i < 4 :: bytes[i] == word[i];
  }
}
