/**
 Disk blocks as bytes, and the view of an index block as little-endian words.
 */
module ByteBlocks {
  import opened Common

  const BSIZE := 1024
  const WORDS := 256

  type ByteBlock = b: seq<Byte> | |b| == 1024 witness seq(1024, _ => 0)

  const ZERO_BYTES: ByteBlock := seq(BSIZE, _ => 0)

  function WordOf(b0: Byte, b1: Byte, b2: Byte, b3: Byte): Word {
    b0 + 0x100 * b1 + 0x1_0000 * b2 + 0x100_0000 * b3
  }

  function GetWord(b: ByteBlock, i: nat): Word
    requires i < WORDS
  {
    WordOf(b[4 * i], b[4 * i + 1], b[4 * i + 2], b[4 * i + 3])
  }

  function SetWord(b: ByteBlock, i: nat, w: Word): ByteBlock
    requires i < WORDS
  {
    b[4 * i     := w % 0x100]
     [4 * i + 1 := w / 0x100 % 0x100]
     [4 * i + 2 := w / 0x1_0000 % 0x100]
     [4 * i + 3 := w / 0x100_0000]
  }

  lemma WordBytes(w: Word)
    ensures WordOf(w % 0x100, w / 0x100 % 0x100, w / 0x1_0000 % 0x100, w / 0x100_0000) == w
  {
    assert w / 0x1_0000 == w / 0x100 / 0x100;
    assert w / 0x100_0000 == w / 0x1_0000 / 0x100;
  }

  /** Writing a word is seen by reads of that word and by no other. */
  lemma WordRoundTrip(b: ByteBlock, i: nat, w: Word, j: nat)
    requires i < WORDS && j < WORDS
    ensures GetWord(SetWord(b, i, w), j) == if i == j then w else GetWord(b, j)
  {
    WordBytes(w);
  }

  /** The lowest byte of a word comes first. */
  lemma LittleEndian(b: ByteBlock, i: nat)
    requires i < WORDS
    ensures
      var w := GetWord(b, i);
      && w % 0x100 == b[4 * i] && w / 0x100 % 0x100 == b[4 * i + 1]
      && w / 0x1_0000 % 0x100 == b[4 * i + 2] && w / 0x100_0000 == b[4 * i + 3]
  {
    var w := GetWord(b, i);
    assert w / 0x100 == (b[4 * i + 1] as int) + 0x100 * (b[4 * i + 2] as int) + 0x1_0000 * (b[4 * i + 3] as int);
    assert w / 0x1_0000 == (b[4 * i + 2] as int) + 0x100 * (b[4 * i + 3] as int);
  }

  lemma ZeroWords(i: nat)
    requires i < WORDS
    ensures GetWord(ZERO_BYTES, i) == 0
  {}
}
