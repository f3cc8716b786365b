/** The on-disk log header: a count `n` followed by `n` block numbers, all little-endian `int`s. */
module LogHeader {
  import opened Words

  const MAXOPBLOCKS := 10
  const LOGSIZE := 30

  predicate Storable(blocks: seq<nat>) {
    |blocks| <= LOGSIZE && AllWords(blocks)
  }

  /** The count that the header block stores. */
  function HeadCount(b: Block): nat {
    U32(b, 0)
  }

  /** What `read_head` leaves in memory. */
  function DecodeHead(b: Block): (blocks: seq<nat>)
    requires HeadCount(b) <= LOGSIZE
    ensures |blocks| == HeadCount(b)
  {
    GetWords(b, 4, HeadCount(b))
  }

  /** What `write_head` leaves in the header's buffer: only the count and the first `n` entries change. */
  function EncodeHead(b: Block, blocks: seq<nat>): (r: Block)
    requires Storable(blocks)
    ensures HeadCount(r) == |blocks| && DecodeHead(r) == blocks
  {
    PutWords(PutU32(b, 0, |blocks|), 4, blocks, |blocks|)
  }
}
