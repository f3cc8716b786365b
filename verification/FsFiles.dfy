/** Files as flat byte sequences, and how each change of a block or pointer shows in them. */
module FsFiles {
  import opened Words
  import opened FsLayout
  import opened FsState
  import opened FsFrames

  const MAXBYTES := MAXFILE * BSIZE

  /** Byte `x` of the file with pointers `ptrs`; a hole reads as 0. */
  function FileByte(blocks: seq<Block>, ptrs: seq<nat>, x: nat): byte
    requires |ptrs| == NPTR && x < MAXBYTES
  {
    var p := ptrs[DataPos(x / BSIZE)];
    if 0 < p < |blocks| then blocks[p][x % BSIZE] else 0
  }

  ghost predicate Rows(t: seq<seq<nat>>) {
    forall i :: 0 <= i < |t| ==> |t[i]| == NPTR
  }

  /** No byte of any file differs. */
  ghost predicate SameBytes(blocks: seq<Block>, t: seq<seq<nat>>, blocks': seq<Block>, t': seq<seq<nat>>)
    requires Rows(t) && Rows(t') && |t| == |t'|
  {
    forall i, x :: 0 <= i < |t| && 0 <= x < MAXBYTES ==> FileByte(blocks', t'[i], x) == FileByte(blocks, t[i], x)
  }

  /** A data pointer never leads to block `y`. */
  ghost predicate NotData(t: seq<seq<nat>>, y: nat)
    requires Rows(t)
  {
    forall i, k :: 0 <= i < |t| && 0 <= k < NPTR && k != NDIRECT ==> t[i][k] != y
  }

  lemma NotDataIf(l: Layout, t: seq<seq<nat>>, owner: map<nat, Slot>, y: nat)
    requires Rows(t) && PointersOwned(t, owner) && OwnersPoint(l, t, owner)
    requires 0 < y && (y < l.datastart || y !in owner || owner[y].k == NDIRECT)
    ensures NotData(t, y)
  {
  }

  /** Changing a block that no data pointer leads to changes no file. */
  lemma OtherBlockSameBytes(blocks: seq<Block>, t: seq<seq<nat>>, y: nat, v: Block)
    requires Rows(t) && y < |blocks| && NotData(t, y)
    ensures SameBytes(blocks, t, blocks[y := v], t)
  {
  }

  /** Filling a hole with a zeroed block changes no file. */
  lemma FillHoleSameBytes(blocks: seq<Block>, t: seq<seq<nat>>, i: nat, k: nat, b: nat)
    requires Rows(t) && i < |t| && k < NPTR && 0 < b < |blocks|
    requires (k == NDIRECT || (t[i][k] == 0 && blocks[b] == Zeros(BSIZE)))
    ensures Rows(Set(t, i, k, b)) && SameBytes(blocks, t, blocks, Set(t, i, k, b))
  {
    var t' := Set(t, i, k, b);
    forall j, x | 0 <= j < |t| && 0 <= x < MAXBYTES
      ensures FileByte(blocks, t'[j], x) == FileByte(blocks, t[j], x)
    {
      assert x / BSIZE < MAXFILE;
    }
  }

  lemma SameBytesTrans(b0: seq<Block>, t0: seq<seq<nat>>, b1: seq<Block>, t1: seq<seq<nat>>, b2: seq<Block>,
      t2: seq<seq<nat>>)
    requires Rows(t0) && Rows(t1) && Rows(t2) && |t0| == |t1| == |t2|
    requires SameBytes(b0, t0, b1, t1) && SameBytes(b1, t1, b2, t2)
    ensures SameBytes(b0, t0, b2, t2)
  {
  }

  /** The inode blocks, and whatever lies before them, are the same. */
  ghost predicate SameMeta(l: Layout, blocks: seq<Block>, blocks': seq<Block>) {
    |blocks| == |blocks'| && forall b :: 0 <= b < l.bmapstart && b < |blocks| ==> blocks'[b] == blocks[b]
  }

  /** Every block is marked in use. */
  ghost predicate Full(l: Layout, blocks: seq<Block>) {
    l.Valid() && |blocks| == l.size && forall c :: 0 <= c < l.size ==> Bit(l, blocks, c)
  }

  // ---------------------------------------------------------------- allocating

  /** The disk after `balloc` handed out block `b`: its bit is set and it is zeroed. */
  function Allocated(l: Layout, blocks: seq<Block>, b: nat): (r: seq<Block>)
    requires l.Valid() && |blocks| == l.size && b < l.size
  {
    BBlockInRange(l, b);
    blocks[l.BBlock(b) := PutBit(blocks[l.BBlock(b)], b, true)][b := Zeros(BSIZE)]
  }

  /** `balloc` takes a free data block, touches no pointer and no file, and sets one bit. */
  lemma AllocatedEffect(l: Layout, blocks: seq<Block>, inodes: seq<Inode>, owner: map<nat, Slot>, b: nat)
    requires Consistent(l, blocks, inodes, owner) && b < l.size && !Bit(l, blocks, b)
    ensures l.datastart <= b && b !in owner
    ensures
      var blocks' := Allocated(l, blocks, b);
      && Bits(l, blocks') == Bits(l, blocks)[b := true]
      && Table(blocks', inodes) == Table(blocks, inodes)
      && SameBytes(blocks, Table(blocks, inodes), blocks', Table(blocks, inodes))
      && blocks'[b] == Zeros(BSIZE) && SameMeta(l, blocks, blocks')
  {
    var t := Table(blocks, inodes);
    assert Bits(l, blocks)[b] == Bit(l, blocks, b);
    assert b !in owner && l.datastart <= b;
    BBlockInRange(l, b);
    var bb := l.BBlock(b);
    var mid := blocks[bb := PutBit(blocks[bb], b, true)];
    BitsPut(l, blocks, b, true);
    MetaNotIndirect(l, blocks, inodes, owner, bb);
    TableSame(blocks, inodes, bb, mid[bb]);
    NotDataIf(l, t, owner, bb);
    OtherBlockSameBytes(blocks, t, bb, mid[bb]);
    BitsSame(l, mid, b, Zeros(BSIZE));
    MetaNotIndirect(l, mid, inodes, owner, b);
    TableSame(mid, inodes, b, Zeros(BSIZE));
    NotDataIf(l, t, owner, b);
    OtherBlockSameBytes(mid, t, b, Zeros(BSIZE));
    SameBytesTrans(blocks, t, mid, t, mid[b := Zeros(BSIZE)], t);
  }

  /** The new block goes into slot `k` of inode `i`: everything stays consistent and no byte of any file changes. */
  ghost predicate Grown(l: Layout, blocks: seq<Block>, inodes: seq<Inode>, owner: map<nat, Slot>,
                        i: nat, k: nat, b: nat, blocks': seq<Block>, inodes': seq<Inode>)
    requires Consistent(l, blocks, inodes, owner) && i < |inodes| && k < NPTR
  {
    && b !in owner && l.datastart <= b < l.size
    && Consistent(l, blocks', inodes', owner[b := Slot(i, k)])
    && Table(blocks', inodes') == Set(Table(blocks, inodes), i, k, b)
    && SameBytes(blocks, Table(blocks, inodes), blocks', Table(blocks', inodes'))
    && (forall j :: 0 <= j < |inodes| && j != i ==> inodes'[j] == inodes[j])
    && SameMeta(l, blocks, blocks')
  }

  /** An allocation that ends in `ip->addrs`. */
  lemma GrowAddr(l: Layout, blocks: seq<Block>, inodes: seq<Inode>, owner: map<nat, Slot>, i: nat, k: nat, b: nat)
    requires Consistent(l, blocks, inodes, owner) && b < l.size && !Bit(l, blocks, b)
    requires i < |inodes| && k <= NDIRECT && inodes[i].addrs[k] == 0
    ensures Grown(l, blocks, inodes, owner, i, k, b, Allocated(l, blocks, b),
                  inodes[i := inodes[i].(addrs := inodes[i].addrs[k := b])])
  {
    var blocks' := Allocated(l, blocks, b);
    var t := Table(blocks, inodes);
    AllocatedEffect(l, blocks, inodes, owner, b);
    assert t[i][k] == 0;
    Attach(l, Bits(l, blocks), t, owner, i, k, b);
    if k < NDIRECT {
      TableDirect(blocks', inodes, i, k, b);
    } else {
      TableIndirect(blocks', inodes, i, b);
    }
    FillHoleSameBytes(blocks', t, i, k, b);
    SameBytesTrans(blocks, t, blocks', t, blocks', Set(t, i, k, b));
  }

  /** An allocation that ends in an entry of the indirect block. */
  lemma GrowEntry(l: Layout, blocks: seq<Block>, inodes: seq<Inode>, owner: map<nat, Slot>, i: nat, k: nat, b: nat)
    requires Consistent(l, blocks, inodes, owner) && b < l.size && !Bit(l, blocks, b)
    requires i < |inodes| && NDIRECT < k < NPTR && inodes[i].addrs[NDIRECT] != 0 && Ptr(blocks, inodes[i], k) == 0
    ensures inodes[i].addrs[NDIRECT] < |Allocated(l, blocks, b)|
    ensures
      var ind := inodes[i].addrs[NDIRECT];
      var mid := Allocated(l, blocks, b);
      Grown(l, blocks, inodes, owner, i, k, b, mid[ind := PutU32(mid[ind], 4 * (k - NDIRECT - 1), b)], inodes)
  {
    hide Owned, SameBytes, U32, PutU32, SameMeta;
    var ind := inodes[i].addrs[NDIRECT];
    AllocatedEffect(l, blocks, inodes, owner, b);
    var mid := Allocated(l, blocks, b);
    assert Table(blocks, inodes)[i][k] == Ptr(blocks, inodes[i], k);
    IndirectAlone(l, blocks, inodes, owner, i);
    EntryAdded(l, mid, inodes, owner, i, k, b);
    var mid' := mid[ind := PutU32(mid[ind], 4 * (k - NDIRECT - 1), b)];
    Attach(l, Bits(l, blocks), Table(blocks, inodes), owner, i, k, b);
    SameBytesTrans(blocks, Table(blocks, inodes), mid, Table(blocks, inodes), mid', Table(mid', inodes));
    DataIsNotMeta(l, blocks, mid, mid', ind);
  }

  lemma DataIsNotMeta(l: Layout, blocks: seq<Block>, mid: seq<Block>, mid': seq<Block>, ind: nat)
    requires SameMeta(l, blocks, mid) && l.Valid() && l.datastart <= ind < |mid| == |mid'|
    requires mid' == mid[ind := mid'[ind]]
    ensures SameMeta(l, blocks, mid')
  {
  }

  /** The indirect block of an inode is a data block, and no other inode has it. */
  lemma IndirectAlone(l: Layout, blocks: seq<Block>, inodes: seq<Inode>, owner: map<nat, Slot>, i: nat)
    requires Consistent(l, blocks, inodes, owner) && i < |inodes| && inodes[i].addrs[NDIRECT] != 0
    ensures
      var ind := inodes[i].addrs[NDIRECT];
      && l.datastart <= ind < l.size && ind in owner && owner[ind] == Slot(i, NDIRECT)
            && NotData(Table(blocks, inodes), ind)
      && forall j :: 0 <= j < |inodes| && j != i ==> inodes[j].addrs[NDIRECT] != ind
  {
    hide Table;
    var ind := inodes[i].addrs[NDIRECT];
    IndirectOwned(l, blocks, inodes, owner, i);
    NotDataIf(l, Table(blocks, inodes), owner, ind);
    forall j | 0 <= j < |inodes| && j != i ensures inodes[j].addrs[NDIRECT] != ind {
      if inodes[j].addrs[NDIRECT] != 0 { IndirectOwned(l, blocks, inodes, owner, j); }
    }
  }

  /** Writing the pointer to the zeroed block `b` into the indirect block. */
  lemma EntryAdded(l: Layout, mid: seq<Block>, inodes: seq<Inode>, owner: map<nat, Slot>, i: nat, k: nat, b: nat)
    requires l.Valid() && |mid| == l.size && AllOk(inodes) && i < |inodes| && NDIRECT < k < NPTR && 0 < b < l.size
    requires
      var ind := inodes[i].addrs[NDIRECT];
      && l.datastart <= ind < l.size && NotData(Table(mid, inodes), ind) && ind != b
      && forall j :: 0 <= j < |inodes| && j != i ==> inodes[j].addrs[NDIRECT] != ind
    requires Table(mid, inodes)[i][k] == 0 && mid[b] == Zeros(BSIZE)
    ensures
      var ind := inodes[i].addrs[NDIRECT];
      var mid' := mid[ind := PutU32(mid[ind], 4 * (k - NDIRECT - 1), b)];
      && Table(mid', inodes) == Set(Table(mid, inodes), i, k, b) && Bits(l, mid') == Bits(l, mid)
      && SameBytes(mid, Table(mid, inodes), mid', Table(mid', inodes))
  {
    hide SameBytes, U32, PutU32, Table;
    var ind, t := inodes[i].addrs[NDIRECT], Table(mid, inodes);
    TableEntry(mid, inodes, i, k, b);
    var v := PutU32(mid[ind], 4 * (k - NDIRECT - 1), b);
    BitsSame(l, mid, ind, v);
    OtherBlockSameBytes(mid, t, ind, v);
    FillHoleSameBytes(mid[ind := v], t, i, k, b);
    SameBytesTrans(mid, t, mid[ind := v], t, mid[ind := v], Set(t, i, k, b));
  }

  // ---------------------------------------------------------------- mapping a file block

  /** The state that file operations change. */
  datatype Fs = Fs(blocks: seq<Block>, inodes: seq<Inode>, owner: map<nat, Slot>)

  ghost predicate FsOk(l: Layout, f: Fs) {
    Consistent(l, f.blocks, f.inodes, f.owner)
  }

  /** The pointers of every inode. */
  ghost function T(f: Fs): (t: seq<seq<nat>>)
    requires AllOk(f.inodes)
    ensures |t| == |f.inodes| && Rows(t)
  {
    Table(f.blocks, f.inodes)
  }

  /** Only empty slots that `bmap` of block `bn` may fill have been filled. */
  ghost predicate Extends(t: seq<seq<nat>>, t': seq<seq<nat>>, i: nat, bn: nat) {
    && Rows(t) && Rows(t') && |t| == |t'|
    && forall j, k :: 0 <= j < |t| && 0 <= k < NPTR ==>
         t'[j][k] == t[j][k] || (t[j][k] == 0 && j == i && (k == DataPos(bn) || (k == NDIRECT && bn >= NDIRECT)))
  }

  /** Nothing but pointers of inode `i` has changed in the inodes. */
  ghost predicate OnlyAddrs(inodes: seq<Inode>, inodes': seq<Inode>, i: nat) {
    && |inodes'| == |inodes| && i < |inodes|
    && (forall j :: 0 <= j < |inodes| && j != i ==> inodes'[j] == inodes[j])
    && inodes'[i] == inodes[i].(addrs := inodes'[i].addrs)
  }

  /** What `bmap` of block `bn` of inode `i` does: it fills empty slots with fresh zeroed blocks. */
  ghost predicate Bmapped(l: Layout, f: Fs, f': Fs, i: nat, bn: nat) {
    && FsOk(l, f) && FsOk(l, f') && bn < MAXFILE
    && OnlyAddrs(f.inodes, f'.inodes, i)
    && Extends(T(f), T(f'), i, bn)
    && SameBytes(f.blocks, T(f), f'.blocks, T(f'))
    && SameMeta(l, f.blocks, f'.blocks)
  }

  lemma BmapNone(l: Layout, f: Fs, i: nat, bn: nat)
    requires FsOk(l, f) && bn < MAXFILE && i < |f.inodes|
    ensures Bmapped(l, f, f, i, bn)
  {
  }

  lemma BmapGrow(l: Layout, f: Fs, f': Fs, i: nat, bn: nat, k: nat, b: nat)
    requires FsOk(l, f) && bn < MAXFILE && i < |f.inodes| && (k == DataPos(bn) || (k == NDIRECT && bn >= NDIRECT))
    requires T(f)[i][k] == 0 && Grown(l, f.blocks, f.inodes, f.owner, i, k, b, f'.blocks, f'.inodes)
    requires f'.owner == f.owner[b := Slot(i, k)] && OnlyAddrs(f.inodes, f'.inodes, i)
    ensures Bmapped(l, f, f', i, bn) && T(f')[i][k] == b
    ensures forall m :: 0 <= m < NPTR && m != k ==> T(f')[i][m] == T(f)[i][m]
  {
  }

  /** The entry of the indirect block that `bmap` reads. */
  lemma EntryIs(l: Layout, f: Fs, i: nat, bn: nat)
    requires FsOk(l, f) && i < |f.inodes| && NDIRECT <= bn < MAXFILE && f.inodes[i].addrs[NDIRECT] != 0
    ensures f.inodes[i].addrs[NDIRECT] in f.owner && f.inodes[i].addrs[NDIRECT] < |f.blocks|
    ensures T(f)[i][NDIRECT] == f.inodes[i].addrs[NDIRECT]
    ensures T(f)[i][DataPos(bn)] == Ptr(f.blocks, f.inodes[i], bn + 1) ==
              U32(f.blocks[f.inodes[i].addrs[NDIRECT]], 4 * (bn - NDIRECT))
  {
    IndirectOwned(l, f.blocks, f.inodes, f.owner, i);
  }

  lemma BmapTrans(l: Layout, f: Fs, g: Fs, h: Fs, i: nat, bn: nat)
    requires Bmapped(l, f, g, i, bn) && Bmapped(l, g, h, i, bn)
    ensures Bmapped(l, f, h, i, bn)
  {
    hide Owned;
    SameBytesTrans(f.blocks, T(f), g.blocks, T(g), h.blocks, T(h));
  }

  // ---------------------------------------------------------------- writing a data block

  /** Block `bn` of file `i` now holds `v`; no other byte of any file differs. */
  ghost predicate Patched(blocks: seq<Block>, t: seq<seq<nat>>, i: nat, bn: nat, v: Block, blocks': seq<Block>)
    requires Rows(t)
  {
    forall j, x {:trigger FileByte(blocks', t[j], x)} :: 0 <= j < |t| && 0 <= x < MAXBYTES ==>
      FileByte(blocks', t[j], x) == if j == i && x / BSIZE == bn then v[x % BSIZE] else FileByte(blocks, t[j], x)
  }

  lemma DataBytes(blocks: seq<Block>, t: seq<seq<nat>>, owner: map<nat, Slot>, i: nat, bn: nat, v: Block)
    requires Rows(t) && PointersOwned(t, owner) && i < |t| && bn < MAXFILE
    requires 0 < t[i][DataPos(bn)] < |blocks|
    ensures Patched(blocks, t, i, bn, v, blocks[t[i][DataPos(bn)] := v])
  {
    var p := t[i][DataPos(bn)];
    var blocks' := blocks[p := v];
    assert owner[p] == Slot(i, DataPos(bn));
    forall j, x {:trigger FileByte(blocks', t[j], x)} | 0 <= j < |t| && 0 <= x < MAXBYTES
      ensures FileByte(blocks', t[j], x) == if j == i && x / BSIZE == bn then v[x % BSIZE]
                else FileByte(blocks, t[j], x)
    {
      var m := DataPos(x / BSIZE);
      assert t[j][m] == p ==> owner[p] == Slot(j, m);
      assert m == DataPos(bn) <==> x / BSIZE == bn;
    }
  }

  /** Writing a data block changes the bytes of its file that it holds, and no other byte of any file. */
  lemma DataWrite(l: Layout, blocks: seq<Block>, inodes: seq<Inode>, owner: map<nat, Slot>, i: nat, bn: nat, v: Block)
    requires Consistent(l, blocks, inodes, owner) && i < |inodes| && bn < MAXFILE
    requires Ptr(blocks, inodes[i], DataPos(bn)) != 0
    ensures l.datastart <= Ptr(blocks, inodes[i], DataPos(bn)) < l.size
    ensures
      var blocks' := blocks[Ptr(blocks, inodes[i], DataPos(bn)) := v];
      && Consistent(l, blocks', inodes, owner) && Table(blocks', inodes) == Table(blocks, inodes)
      && Patched(blocks, Table(blocks, inodes), i, bn, v, blocks')
  {
    var k := DataPos(bn);
    var p := Ptr(blocks, inodes[i], k);
    var t := Table(blocks, inodes);
    assert t[i][k] == p;
    assert p in owner && owner[p] == Slot(i, k);
    MetaNotIndirect(l, blocks, inodes, owner, p);
    TableSame(blocks, inodes, p, v);
    BitsSame(l, blocks, p, v);
    DataBytes(blocks, t, owner, i, bn, v);
  }
}
