/** What one changed block, bit, pointer or inode does to the bitmap and to the table of pointers. */
module FsFrames {
  import opened Words
  import opened FsLayout
  import opened FsState

  ghost predicate NotIndirect(inodes: seq<Inode>, x: nat)
    requires AllOk(inodes)
  {
    forall i :: 0 <= i < |inodes| ==> inodes[i].addrs[NDIRECT] != x
  }

  /** A block that is nobody's indirect block holds no pointers. */
  lemma TableSame(blocks: seq<Block>, inodes: seq<Inode>, x: nat, v: Block)
    requires AllOk(inodes) && x < |blocks| && NotIndirect(inodes, x)
    ensures Table(blocks[x := v], inodes) == Table(blocks, inodes)
  {
    forall i | 0 <= i < |inodes|
      ensures Ptrs(blocks[x := v], inodes[i]) == Ptrs(blocks, inodes[i])
    {
    }
  }

  /** Indirect blocks are data blocks, and a block has one owner. */
  lemma IndirectOwned(l: Layout, blocks: seq<Block>, inodes: seq<Inode>, owner: map<nat, Slot>, i: nat)
    requires AllOk(inodes) && PointersOwned(Table(blocks, inodes), owner) && i < |inodes|
    requires inodes[i].addrs[NDIRECT] != 0
    ensures inodes[i].addrs[NDIRECT] in owner && owner[inodes[i].addrs[NDIRECT]] == Slot(i, NDIRECT)
  {
    assert Table(blocks, inodes)[i][NDIRECT] == inodes[i].addrs[NDIRECT];
  }

  lemma MetaNotIndirect(l: Layout, blocks: seq<Block>, inodes: seq<Inode>, owner: map<nat, Slot>, x: nat)
    requires AllOk(inodes) && PointersOwned(Table(blocks, inodes), owner)
    requires OwnersPoint(l, Table(blocks, inodes), owner)
    requires 0 < x && (x < l.datastart || x !in owner || owner[x].k != NDIRECT)
    ensures NotIndirect(inodes, x)
  {
    forall i | 0 <= i < |inodes| && inodes[i].addrs[NDIRECT] != 0
      ensures inodes[i].addrs[NDIRECT] != x
    {
      IndirectOwned(l, blocks, inodes, owner, i);
    }
  }

  /** A block outside the bitmap area holds no bits. */
  lemma BitsSame(l: Layout, blocks: seq<Block>, x: nat, v: Block)
    requires l.Valid() && |blocks| == l.size && x < l.size && (x < l.bmapstart || l.datastart <= x)
    ensures Bits(l, blocks[x := v]) == Bits(l, blocks)
  {
    forall b | 0 <= b < l.size ensures l.BBlock(b) != x {
      assert b / BPB <= (l.size - 1) / BPB;
    }
  }

  lemma BBlockInRange(l: Layout, b: nat)
    requires l.Valid() && b < l.size
    ensures l.bmapstart <= l.BBlock(b) < l.datastart && 0 < l.BBlock(b)
  {
    assert b / BPB <= (l.size - 1) / BPB;
  }

  lemma BitsPut(l: Layout, blocks: seq<Block>, b: nat, on: bool)
    requires l.Valid() && |blocks| == l.size && b < l.size
    ensures l.BBlock(b) < |blocks|
    ensures Bits(l, blocks[l.BBlock(b) := PutBit(blocks[l.BBlock(b)], b, on)]) == Bits(l, blocks)[b := on]
  {
    BBlockInRange(l, b);
    var blocks' := blocks[l.BBlock(b) := PutBit(blocks[l.BBlock(b)], b, on)];
    forall c | 0 <= c < l.size
      ensures Bit(l, blocks', c) == if c == b then on else Bit(l, blocks, c)
    {
      BBlockInRange(l, c);
      assert l.BBlock(c) == l.BBlock(b) <==> c / BPB == b / BPB;
    }
  }

  /** Storing a direct pointer. */
  lemma TableDirect(blocks: seq<Block>, inodes: seq<Inode>, i: nat, k: nat, b: nat)
    requires AllOk(inodes) && i < |inodes| && k < NDIRECT && b < WORD
    ensures
      var inodes' := inodes[i := inodes[i].(addrs := inodes[i].addrs[k := b])];
      AllOk(inodes') && Table(blocks, inodes') == Set(Table(blocks, inodes), i, k, b)
  {
    var ino' := inodes[i].(addrs := inodes[i].addrs[k := b]);
    var inodes' := inodes[i := ino'];
    assert Ptrs(blocks, ino') == Ptrs(blocks, inodes[i])[k := b];
    assert Table(blocks, inodes') == Table(blocks, inodes)[i := Ptrs(blocks, inodes[i])[k := b]];
  }

  lemma ZeroWords(b: Block, k: nat)
    requires b == Zeros(BSIZE) && k < NINDIRECT
    ensures U32(b, 4 * k) == 0
  {
  }

  /** Storing the pointer to a zeroed indirect block. */
  lemma TableIndirect(blocks: seq<Block>, inodes: seq<Inode>, i: nat, b: nat)
    requires AllOk(inodes) && i < |inodes| && b < WORD
    requires inodes[i].addrs[NDIRECT] == 0 && b < |blocks| && blocks[b] == Zeros(BSIZE)
    ensures
      var inodes' := inodes[i := inodes[i].(addrs := inodes[i].addrs[NDIRECT := b])];
      AllOk(inodes') && Table(blocks, inodes') == Set(Table(blocks, inodes), i, NDIRECT, b)
  {
    var ino' := inodes[i].(addrs := inodes[i].addrs[NDIRECT := b]);
    var inodes' := inodes[i := ino'];
    forall k | 0 <= k < NPTR
      ensures Ptrs(blocks, ino')[k] == Ptrs(blocks, inodes[i])[NDIRECT := b][k]
    {
      if k > NDIRECT { ZeroWords(blocks[b], k - NDIRECT - 1); }
    }
    assert Ptrs(blocks, ino') == Ptrs(blocks, inodes[i])[NDIRECT := b];
    assert Table(blocks, inodes') == Table(blocks, inodes)[i := Ptrs(blocks, inodes[i])[NDIRECT := b]];
  }

  /** Storing an entry of the indirect block. */
  lemma TableEntry(blocks: seq<Block>, inodes: seq<Inode>, i: nat, k: nat, b: nat)
    requires AllOk(inodes) && i < |inodes| && NDIRECT < k < NPTR && b < WORD
    requires 0 < inodes[i].addrs[NDIRECT] < |blocks|
    requires forall j :: 0 <= j < |inodes| && j != i ==> inodes[j].addrs[NDIRECT] != inodes[i].addrs[NDIRECT]
    ensures
      var ind := inodes[i].addrs[NDIRECT];
      var blocks' := blocks[ind := PutU32(blocks[ind], 4 * (k - NDIRECT - 1), b)];
      Table(blocks', inodes) == Set(Table(blocks, inodes), i, k, b)
  {
    var ind := inodes[i].addrs[NDIRECT];
    var v := PutU32(blocks[ind], 4 * (k - NDIRECT - 1), b);
    var blocks' := blocks[ind := v];
    forall m | 0 <= m < NPTR
      ensures Ptrs(blocks', inodes[i])[m] == Ptrs(blocks, inodes[i])[k := b][m]
    {
      if m > NDIRECT && m != k {
        PutU32Other(blocks[ind], 4 * (k - NDIRECT - 1), b, 4 * (m - NDIRECT - 1));
      }
    }
    assert Ptrs(blocks', inodes[i]) == Ptrs(blocks, inodes[i])[k := b];
    forall j | 0 <= j < |inodes| && j != i
      ensures Ptrs(blocks', inodes[j]) == Ptrs(blocks, inodes[j])
    {
    }
    assert Table(blocks', inodes) == Table(blocks, inodes)[i := Ptrs(blocks, inodes[i])[k := b]];
  }
}
