/**
 Disk blocks as byte sequences, and the little-endian 32-bit words that the log
 header, indirect blocks and on-disk inodes store in them (fs.h, log.c).
 */
module Blocks {

  const BSIZE: nat := 512
  const WORDS: nat := BSIZE / 4
  const TWO32: nat := 0x1_0000_0000

  type Byte = x: int | 0 <= x < 256
  type Word = x: int | 0 <= x < TWO32
  type Block = b: seq<Byte> | |b| == BSIZE witness seq(BSIZE, _ => 0)
  type Disk = seq<Block>

  function ZeroBlock(): Block {
    seq(BSIZE, _ => 0)
  }

  /** Byte `i` (0 is least significant) of a 32-bit word. */
  function ByteOf(w: Word, i: nat): Byte
    requires i < 4
  {
    if i == 0 then w % 256
    else if i == 1 then w / 256 % 256
    else if i == 2 then w / 65536 % 256
    else w / 16777216
  }

  /** The word stored at word index `i`. */
  function WordAt(b: Block, i: nat): Word
    requires i < WORDS
  {
    var b0: int, b1: int, b2: int, b3: int := b[4 * i], b[4 * i + 1], b[4 * i + 2], b[4 * i + 3];
    b0 + 256 * b1 + 65536 * b2 + 16777216 * b3
  }

  /** The block with the words `ws` stored from word index `at` on; the rest is kept. */
  function PutWords(b: Block, at: nat, ws: seq<Word>): Block
    requires at + |ws| <= WORDS
  {
    seq(BSIZE, k requires 0 <= k < BSIZE =>
      if 4 * at <= k < 4 * (at + |ws|) then ByteOf(ws[k / 4 - at], k % 4) else b[k])
  }

  /** The block with word `i` replaced. */
  function PutWord(b: Block, i: nat, w: Word): Block
    requires i < WORDS
  {
    b[4 * i := ByteOf(w, 0)][4 * i + 1 := ByteOf(w, 1)][4 * i + 2 := ByteOf(w, 2)][4 * i + 3 := ByteOf(w, 3)]
  }

  lemma BytesOfWord(w: Word)
    ensures var b0: int, b1: int, b2: int, b3: int := ByteOf(w, 0), ByteOf(w, 1), ByteOf(w, 2), ByteOf(w, 3);
            b0 + 256 * b1 + 65536 * b2 + 16777216 * b3 == w
  {
    var a, b := w / 256, w / 65536;
    assert w == 256 * a + w % 256;
    assert a == 256 * (a / 256) + a % 256;
    assert a / 256 == b;
    assert b / 256 == w / 16777216;
  }

  lemma WordAtPutWords(b: Block, at: nat, ws: seq<Word>, i: nat)
    requires at + |ws| <= WORDS && i < WORDS
    ensures WordAt(PutWords(b, at, ws), i) == if at <= i < at + |ws| then ws[i - at] else WordAt(b, i)
  {
    if at <= i < at + |ws| {
      BytesOfWord(ws[i - at]);
    }
  }

  lemma WordAtPutWord(b: Block, i: nat, w: Word, j: nat)
    requires i < WORDS && j < WORDS
    ensures WordAt(PutWord(b, i, w), j) == if i == j then w else WordAt(b, j)
  {
    BytesOfWord(w);
  }
}
