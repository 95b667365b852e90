// Sizes of the 64-bit configuration that several parts of the collector depend on:
// gc/include/private/gc_priv.h and gc/include/gc_tiny_fl.h.

module Config {
  const WORD_BYTES: nat := 8
  const GRANULE_BYTES: nat := 16
  const HBLKSIZE: nat := 4096
  const HBLK_GRANULES: nat := 256
  const MAXOBJBYTES: nat := 2048        // HBLKSIZE / 2
  const MAXOBJGRANULES: nat := 128
  const PHT_ENTRIES: nat := 0x40000     // buckets of a page hash table
  const SPLIT_RANGE_WORDS: nat := 128
  const SHARE_WORDS: nat := 256         // SHARE_BYTES in words
}
