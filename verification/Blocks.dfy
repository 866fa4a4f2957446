/**
 Disk blocks as the cache and the log see them.

 A block is BSIZE bytes. The cache and the log only copy blocks whole and, in the
 log header, store 32-bit integers, so here a block is its 256 words. Module
 Files, which stores bytes, has the byte view.
 */
module Blocks {
  import opened Common

  const WORDS_PER_BLOCK := 256

  type Block = b: seq<Word> | |b| == 256 witness seq(256, _ => 0)

  const ZERO_BLOCK: Block := seq(WORDS_PER_BLOCK, _ => 0)
}
