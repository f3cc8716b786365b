/** Reading and writing files: the effect of each step on the bytes of every file. */
module FsWrite {
  import opened Words
  import opened FsLayout
  import opened FsState
  import opened FsFrames
  import opened FsFiles

  /** The bytes of file `i` from `off` on were replaced by `data`; no other byte of any file differs. */
  ghost predicate Wrote(f: Fs, f': Fs, i: nat, off: nat, data: seq<byte>)
    requires AllOk(f.inodes) && AllOk(f'.inodes) && |f.inodes| == |f'.inodes|
  {
    forall j, x {:trigger FileByte(f'.blocks, T(f')[j], x)} :: 0 <= j < |f.inodes| && 0 <= x < MAXBYTES ==>
      FileByte(f'.blocks, T(f')[j], x) == if j == i && off <= x < off + |data| then data[x - off]
          else FileByte(f.blocks, T(f)[j], x)
  }

  lemma WroteNothing(f: Fs, f': Fs, i: nat, off: nat)
    requires AllOk(f.inodes) && AllOk(f'.inodes) && |f.inodes| == |f'.inodes|
    requires SameBytes(f.blocks, T(f), f'.blocks, T(f'))
    ensures Wrote(f, f', i, off, [])
  {
  }

  /** Two adjacent writes are one. */
  lemma WroteAppend(f: Fs, g: Fs, h: Fs, i: nat, off: nat, d: seq<byte>, e: seq<byte>)
    requires AllOk(f.inodes) && AllOk(g.inodes) && AllOk(h.inodes) && |f.inodes| == |g.inodes| == |h.inodes|
    requires Wrote(f, g, i, off, d) && Wrote(g, h, i, off + |d|, e)
    ensures Wrote(f, h, i, off, d + e)
  {
    forall j, x {:trigger FileByte(h.blocks, T(h)[j], x)} | 0 <= j < |f.inodes| && 0 <= x < MAXBYTES
      ensures FileByte(h.blocks, T(h)[j], x) ==
              if j == i && off <= x < off + |d + e| then (d + e)[x - off] else FileByte(f.blocks, T(f)[j], x)
    {
      assert FileByte(g.blocks, T(g)[j], x) == FileByte(g.blocks, T(g)[j], x);
    }
  }

  /** A block with `piece` copied over it from byte `o` on. */
  function Overlay(b: Block, o: nat, piece: seq<byte>): (r: Block)
    requires o + |piece| <= BSIZE
    ensures forall y :: 0 <= y < BSIZE ==> r[y] == if o <= y < o + |piece| then piece[y - o] else b[y]
  {
    b[..o] + piece + b[o + |piece|..]
  }

  /** Pointers once set stay; only inode `i` gains any. */
  ghost predicate Keeps(t: seq<seq<nat>>, t': seq<seq<nat>>, i: nat) {
    && Rows(t) && Rows(t') && |t| == |t'|
    && (forall j :: 0 <= j < |t| && j != i ==> t'[j] == t[j])
    && (i < |t| ==> forall k :: 0 <= k < NPTR && t[i][k] != 0 ==> t'[i][k] == t[i][k])
  }

  lemma ExtendsKeeps(t: seq<seq<nat>>, t': seq<seq<nat>>, i: nat, bn: nat)
    requires Extends(t, t', i, bn) && i < |t|
    ensures Keeps(t, t', i)
    ensures forall k :: 0 <= k < NPTR && k != DataPos(bn) && k != NDIRECT ==> t'[i][k] == t[i][k]
  {
    forall j | 0 <= j < |t| && j != i ensures t'[j] == t[j] {
      assert forall k :: 0 <= k < NPTR ==> t'[j][k] == t[j][k];
    }
  }

  /** One step of a write: everything stays consistent and only file `i` changes, by `piece` at `off`. */
  ghost predicate Stepped(l: Layout, f: Fs, f': Fs, i: nat, off: nat, piece: seq<byte>) {
    && FsOk(l, f) && FsOk(l, f') && OnlyAddrs(f.inodes, f'.inodes, i)
    && Keeps(T(f), T(f'), i) && SameMeta(l, f.blocks, f'.blocks)
    && Wrote(f, f', i, off, piece)
  }

  lemma SteppedTrans(l: Layout, f: Fs, g: Fs, h: Fs, i: nat, off: nat, d: seq<byte>, e: seq<byte>)
    requires Stepped(l, f, g, i, off, d) && Stepped(l, g, h, i, off + |d|, e)
    ensures Stepped(l, f, h, i, off, d + e)
  {
    hide Owned;
    WroteAppend(f, g, h, i, off, d, e);
  }

  lemma BmapStepped(l: Layout, f: Fs, f': Fs, i: nat, bn: nat, off: nat)
    requires Bmapped(l, f, f', i, bn)
    ensures Stepped(l, f, f', i, off, [])
  {
    hide Owned;
    ExtendsKeeps(T(f), T(f'), i, bn);
    WroteNothing(f, f', i, off);
  }

  /** Copying `piece` into the block that holds offset `off` of file `i`. */
  lemma DataStepped(l: Layout, f: Fs, i: nat, off: nat, piece: seq<byte>)
    requires FsOk(l, f) && i < |f.inodes| && off + |piece| <= MAXBYTES && off < MAXBYTES
    requires off % BSIZE + |piece| <= BSIZE
    requires T(f)[i][DataPos(off / BSIZE)] != 0
    ensures l.inodestart <= T(f)[i][DataPos(off / BSIZE)] < |f.blocks|
    ensures
      var p := T(f)[i][DataPos(off / BSIZE)];
      var f' := f.(blocks := f.blocks[p := Overlay(f.blocks[p], off % BSIZE, piece)]);
      Stepped(l, f, f', i, off, piece) && T(f') == T(f)
  {
    var bn := off / BSIZE;
    var p := T(f)[i][DataPos(bn)];
    assert p == Ptr(f.blocks, f.inodes[i], DataPos(bn));
    assert p in f.owner;
    var v := Overlay(f.blocks[p], off % BSIZE, piece);
    DataWrite(l, f.blocks, f.inodes, f.owner, i, bn, v);
    var f' := f.(blocks := f.blocks[p := v]);
    PatchedWrote(f, f', i, off, piece);
  }

  lemma PatchedWrote(f: Fs, f': Fs, i: nat, off: nat, piece: seq<byte>)
    requires AllOk(f.inodes) && f'.inodes == f.inodes && T(f') == T(f) && i < |f.inodes|
    requires off < MAXBYTES && off % BSIZE + |piece| <= BSIZE && 0 < T(f)[i][DataPos(off / BSIZE)] < |f.blocks|
    requires Patched(f.blocks, T(f), i, off / BSIZE,
                     Overlay(f.blocks[T(f)[i][DataPos(off / BSIZE)]], off % BSIZE, piece), f'.blocks)
    ensures Wrote(f, f', i, off, piece)
  {
    forall j, x {:trigger FileByte(f'.blocks, T(f')[j], x)} | 0 <= j < |f.inodes| && 0 <= x < MAXBYTES
      ensures FileByte(f'.blocks, T(f')[j], x) ==
              if j == i && off <= x < off + |piece| then piece[x - off] else FileByte(f.blocks, T(f)[j], x)
    {
      SameBlock(off, x, |piece|);
    }
  }

  lemma SameBlock(off: nat, x: nat, m: nat)
    requires off % BSIZE + m <= BSIZE
    ensures off <= x < off + m <==> x / BSIZE == off / BSIZE && off % BSIZE <= x % BSIZE < off % BSIZE + m
    ensures off <= x < off + m ==> x % BSIZE - off % BSIZE == x - off
  {
  }

  // ---------------------------------------------------------------- inode updates

  /** `iupdate`: the inode block with the current inode `i`. */
  function Updated(l: Layout, f: Fs, i: nat): Fs
    requires l.Valid() && |f.blocks| == l.size && |f.inodes| == l.ninodes && AllOk(f.inodes) && i < l.ninodes
  {
    IBlockInRange(l, i);
    f.(blocks := f.blocks[l.IBlock(i) := PutInode(f.blocks[l.IBlock(i)], i % IPB, f.inodes[i])])
  }

  lemma IBlockInRange(l: Layout, i: nat)
    requires l.Valid() && i < l.ninodes
    ensures l.inodestart <= l.IBlock(i) < l.bmapstart < l.size
  {
    assert i / IPB <= (l.ninodes - 1) / IPB;
  }

  /** Storing inode `i` disturbs no other inode, no pointer, no bit and no file. */
  lemma StoredEffect(l: Layout, f: Fs, i: nat)
    requires Sized(l, f.blocks, f.inodes) && PointersOwned(T(f), f.owner) && OwnersPoint(l, T(f), f.owner)
    requires i < l.ninodes
    ensures T(Updated(l, f, i)) == T(f) && Bits(l, Updated(l, f, i).blocks) == Bits(l, f.blocks)
    ensures Wrote(f, Updated(l, f, i), i, 0, [])
    ensures forall j :: 0 <= j < l.ninodes ==>
              l.IBlock(j) < l.size && DiskInode(l, Updated(l, f, i).blocks, j) == if j == i then f.inodes[i]
                  else DiskInode(l, f.blocks, j)
  {
    IBlockInRange(l, i);
    var ib := l.IBlock(i);
    var v := PutInode(f.blocks[ib], i % IPB, f.inodes[i]);
    MetaNotIndirect(l, f.blocks, f.inodes, f.owner, ib);
    TableSame(f.blocks, f.inodes, ib, v);
    BitsSame(l, f.blocks, ib, v);
    NotDataIf(l, T(f), f.owner, ib);
    OtherBlockSameBytes(f.blocks, T(f), ib, v);
    WroteNothing(f, Updated(l, f, i), i, 0);
    forall j | 0 <= j < l.ninodes
      ensures l.IBlock(j) < l.size && DiskInode(l, Updated(l, f, i).blocks, j) == if j == i then f.inodes[i]
                else DiskInode(l, f.blocks, j)
    {
      IBlockInRange(l, j);
      PutInodeIs(f.blocks[ib], i % IPB, f.inodes[i], j % IPB);
    }
  }

  /** `iupdate` keeps the file system consistent and stores inode `i`. */
  lemma UpdatedEffect(l: Layout, f: Fs, i: nat)
    requires FsOk(l, f) && i < l.ninodes
    ensures FsOk(l, Updated(l, f, i)) && T(Updated(l, f, i)) == T(f)
    ensures Wrote(f, Updated(l, f, i), i, 0, [])
    ensures forall j :: 0 <= j < l.ninodes ==>
              l.IBlock(j) < l.size && DiskInode(l, Updated(l, f, i).blocks, j) == if j == i then f.inodes[i]
                  else DiskInode(l, f.blocks, j)
  {
    StoredEffect(l, f, i);
  }

  // ---------------------------------------------------------------- what a write logs

  /** The pointer to data block `bn`, and the pointer to the indirect block. */
  function Cell(row: seq<nat>, bn: nat): nat {
    if DataPos(bn) < |row| then row[DataPos(bn)] else 0
  }

  function Ind(row: seq<nat>): nat {
    if NDIRECT < |row| then row[NDIRECT] else 0
  }

  /** The pointers of inode `i`. */
  ghost function Row(f: Fs, i: nat): seq<nat> {
    if AllOk(f.inodes) && i < |f.inodes| then T(f)[i] else []
  }

  /** Pointers that are set in `row` are the same in `row'`. */
  ghost predicate RowKeeps(row: seq<nat>, row': seq<nat>) {
    |row| == |row'| && forall k :: 0 <= k < |row| && row[k] != 0 ==> row'[k] == row[k]
  }

  /** How many of the two slots that `bmap` of block `bn` can fill went from empty to full. */
  ghost function Filled(row: seq<nat>, row': seq<nat>, bn: nat): nat {
    (if Cell(row, bn) == 0 && Cell(row', bn) != 0 then 1 else 0) + (if Ind(row) == 0 && Ind(row') != 0 then 1 else 0)
  }

  /** The blocks logged since the transaction began: bitmap blocks and others. */
  datatype Log = Log(bits: set<nat>, blks: set<nat>)

  /** The log gains at most the two pointers' blocks, and one bitmap block for each slot that was filled. */
  ghost predicate LogGrows(row: seq<nat>, row': seq<nat>, bn: nat, log: Log, log': Log) {
    && |log'.bits| <= |log.bits| + Filled(row, row', bn)
    && log'.blks <= log.blks + ({Cell(row', bn), Ind(row')} - {0})
  }

  /** Blocks visited, blocks newly allocated among them, indirect blocks allocated, and the data blocks logged. */
  datatype Tally = Tally(visited: nat, added: nat, ind: nat, touched: set<nat>)

  const NOTHING := Tally(0, 0, 0, {})

  /** What a write that starts in block `lo` has logged so far, given the log before it. */
  ghost predicate Tallied(row0: seq<nat>, row: seq<nat>, lo: nat, y: Tally, log0: Log, log: Log) {
    && |log.bits| <= |log0.bits| + y.added + y.ind
    && y.added <= y.visited && (Cell(row0, lo) != 0 && y.visited > 0 ==> y.added < y.visited)
    && y.ind <= 1 && (y.ind == 1 ==> Ind(row) != 0)
    && |y.touched| <= y.visited
    && log.blks <= log0.blks + y.touched + ({Ind(row)} - {0})
  }

  lemma TallyNext(row0: seq<nat>, row: seq<nat>, row': seq<nat>, lo: nat, bn: nat, y: Tally, log0: Log, log: Log,
      log': Log) returns (y': Tally)
    requires Tallied(row0, row, lo, y, log0, log) && LogGrows(row, row', bn, log, log')
    requires Ind(row) != 0 ==> Ind(row') == Ind(row)
    requires y.visited == 0 ==> bn == lo && row == row0
    ensures Tallied(row0, row', lo, y', log0, log') && y'.visited == y.visited + 1
  {
    var isNew := if Cell(row, bn) == 0 && Cell(row', bn) != 0 then 1 else 0;
    var isInd := if Ind(row) == 0 && Ind(row') != 0 then 1 else 0;
    y' := Tally(y.visited + 1, y.added + isNew, y.ind + isInd, y.touched + ({Cell(row', bn)} - {0}));
  }

  /** Distinct blocks that a transaction has logged. */
  ghost function Logged(log: Log): nat {
    |log.bits + log.blks|
  }

  lemma UnionSize(a: set<nat>, b: set<nat>)
    ensures |a + b| <= |a| + |b|
  {
    assert |a + b| + |a * b| == |a| + |b|;
  }

  lemma SubsetSize(a: set<nat>, b: set<nat>)
    requires a <= b
    ensures |a| <= |b|
  {
    assert b == a + (b - a);
  }

  /** Data blocks, their bitmap blocks, the indirect block and its bitmap block, and the inode block: ten at most. */
  lemma TenBlocks(row0: seq<nat>, row: seq<nat>, lo: nat, y: Tally, log: Log, ib: nat)
    requires Tallied(row0, row, lo, y, Log({}, {}), log)
    requires y.visited <= 4 && (y.visited == 4 ==> Cell(row0, lo) != 0)
    ensures Logged(Log(log.bits, log.blks + {ib})) <= 10
  {
    UnionSize(log.bits, log.blks + {ib});
    UnionSize(log.blks, {ib});
    var ind := {Ind(row)} - {0};
    UnionSize(y.touched, ind);
    SubsetSize(ind, {Ind(row)});
    assert {} + y.touched + ind == y.touched + ind;
    SubsetSize(log.blks, y.touched + ind);
  }

  // ---------------------------------------------------------------- files without holes

  /** Every block below `size` is there. */
  ghost predicate HoleFree(row: seq<nat>, size: nat) {
    forall bn :: 0 <= bn && bn * BSIZE < size ==> Cell(row, bn) != 0
  }

  ghost predicate FilesOk(f: Fs) {
    forall i :: 0 <= i < |f.inodes| ==> f.inodes[i].size <= MAXBYTES && HoleFree(Row(f, i), f.inodes[i].size)
  }

  /** The blocks from offset `off` up to `off + tot` are there. */
  ghost predicate Covered(row: seq<nat>, off: nat, tot: nat) {
    forall bn :: 0 < tot && off / BSIZE <= bn && bn * BSIZE < off + tot ==> Cell(row, bn) != 0
  }

  /** A hole-free file that is extended from an offset inside it stays hole-free. */
  lemma StillHoleFree(row0: seq<nat>, row: seq<nat>, size: nat, off: nat, tot: nat)
    requires off <= size && HoleFree(row0, size) && Covered(row, off, tot) && RowKeeps(row0, row)
    ensures HoleFree(row, if off + tot > size then off + tot else size)
  {
    forall bn | 0 <= bn && bn * BSIZE < (if off + tot > size then off + tot else size)
      ensures Cell(row, bn) != 0
    {
      if bn * BSIZE < size {
        assert Cell(row0, bn) != 0;
      } else {
        assert off / BSIZE <= bn;
      }
    }
  }

  /** A write that starts inside a block of a hole-free file, or at its end, finds that block. */
  lemma FirstBlockThere(row: seq<nat>, size: nat, off: nat)
    requires off <= size && HoleFree(row, size) && off % BSIZE != 0
    ensures Cell(row, off / BSIZE) != 0
  {
    assert off / BSIZE * BSIZE < off;
  }

  lemma CoveredMore(row: seq<nat>, row': seq<nat>, off: nat, tot: nat, m: nat)
    requires 0 < m && (off + tot) % BSIZE + m <= BSIZE
    requires Covered(row, off, tot) && Cell(row', (off + tot) / BSIZE) != 0 && RowKeeps(row, row')
    ensures Covered(row', off, tot + m)
  {
    forall bn | off / BSIZE <= bn && bn * BSIZE < off + tot + m
      ensures Cell(row', bn) != 0
    {
      if bn != (off + tot) / BSIZE {
        assert bn * BSIZE < off + tot && 0 < tot;
        assert Cell(row, bn) != 0;
      }
    }
  }

  lemma CoveredKeeps(row: seq<nat>, row': seq<nat>, off: nat, tot: nat)
    requires Covered(row, off, tot) && RowKeeps(row, row')
    ensures Covered(row', off, tot)
  {
    forall bn | 0 < tot && off / BSIZE <= bn && bn * BSIZE < off + tot
      ensures Cell(row', bn) != 0
    {
      assert Cell(row, bn) != 0;
    }
  }

  /** A chunk of at most three blocks visits at most four, and at most three if it starts on a boundary. */
  lemma VisitBound(off: nat, n: nat, visited: nat)
    requires n <= 3 * BSIZE && (visited > 0 ==> (off / BSIZE + visited - 1) * BSIZE < off + n)
    ensures visited <= 4 && (visited == 4 ==> off % BSIZE != 0)
  {
  }

  // ---------------------------------------------------------------- the loop of writei

  lemma SteppedNone(l: Layout, f: Fs, i: nat, off: nat)
    requires FsOk(l, f) && i < |f.inodes|
    ensures Stepped(l, f, f, i, off, [])
  {
  }

  lemma SteppedKeeps(l: Layout, f: Fs, f': Fs, i: nat, off: nat, piece: seq<byte>)
    requires Stepped(l, f, f', i, off, piece)
    ensures RowKeeps(Row(f, i), Row(f', i))
  {
  }

  /** The first `tot` bytes of `src` have been written at `off`, and `y` accounts for what was logged. */
  ghost predicate Progress(l: Layout, f: Fs, g: Fs, i: nat, off: nat, src: seq<byte>, tot: nat, y: Tally, log0: Log,
      log: Log) {
    && tot <= |src| && off + |src| <= MAXBYTES
    && Stepped(l, f, g, i, off, src[..tot]) && Covered(Row(g, i), off, tot)
    && Tallied(Row(f, i), Row(g, i), off / BSIZE, y, log0, log)
    && (y.visited > 0 ==> (off / BSIZE + y.visited - 1) * BSIZE < off + |src|)
  }

  /** The loop may go on: the last chunk ended where the next one starts. */
  ghost predicate Ready(f: Fs, g: Fs, off: nat, n: nat, tot: nat, y: Tally) {
    && (tot == 0 ==> y.visited == 0 && g == f)
    && (0 < tot < n ==> off + tot == (off / BSIZE + y.visited) * BSIZE)
  }

  /** Bytes that the next turn of the loop copies. */
  function ChunkLen(off: nat, tot: nat, n: nat): nat
    requires tot < n
  {
    var room := BSIZE - (off + tot) % BSIZE;
    if n - tot < room then n - tot else room
  }

  /** Where the chunk that starts at `off + tot` ends, and which block it visits. */
  lemma ChunkEnds(off: nat, tot: nat, n: nat, visited: nat)
    requires tot < n && (if tot == 0 then visited == 0 else off + tot == (off / BSIZE + visited) * BSIZE)
    ensures (off + tot) / BSIZE == off / BSIZE + visited
    ensures
      var m := ChunkLen(off, tot, n);
      && 0 < m && (off + tot) % BSIZE + m <= BSIZE && tot + m <= n
      && (off / BSIZE + visited) * BSIZE < off + tot + m
      && (tot + m < n ==> off + tot + m == (off / BSIZE + visited + 1) * BSIZE)
  {
  }

  lemma LoopStart(l: Layout, f: Fs, i: nat, off: nat, src: seq<byte>, log: Log)
    requires FsOk(l, f) && i < |f.inodes| && off + |src| <= MAXBYTES
    ensures Progress(l, f, f, i, off, src, 0, NOTHING, log, log) && Ready(f, f, off, |src|, 0, NOTHING)
  {
    assert src[..0] == [];
    SteppedNone(l, f, i, off);
  }

  /** One turn of the loop, whether it wrote its piece or gave up. */
  ghost predicate Turn(l: Layout, g: Fs, h: Fs, i: nat, off: nat, piece: seq<byte>, done: bool, log: Log, log': Log) {
    && Stepped(l, g, h, i, off, if done then piece else [])
    && (done ==> Cell(Row(h, i), off / BSIZE) != 0)
    && LogGrows(Row(g, i), Row(h, i), off / BSIZE, log, log')
  }

  lemma LoopStep(l: Layout, f: Fs, g: Fs, h: Fs, i: nat, off: nat, src: seq<byte>, tot: nat, m: nat, done: bool,
      y: Tally,
                 log0: Log, log: Log, log': Log) returns (y': Tally)
    requires tot < |src| && Progress(l, f, g, i, off, src, tot, y, log0, log) && Ready(f, g, off, |src|, tot, y)
    requires m == ChunkLen(off, tot, |src|) && tot + m <= |src|
    requires Turn(l, g, h, i, off + tot, src[tot..tot + m], done, log, log')
    ensures Progress(l, f, h, i, off, src, if done then tot + m else tot, y', log0, log')
    ensures done ==> Ready(f, h, off, |src|, tot + m, y')
  {
    hide Stepped, Tallied, LogGrows, Row, Covered;
    var piece := if done then src[tot..tot + m] else [];
    ChunkEnds(off, tot, |src|, y.visited);
    SteppedKeeps(l, g, h, i, off + tot, piece);
    y' := TallyNext(Row(f, i), Row(g, i), Row(h, i), off / BSIZE, (off + tot) / BSIZE, y, log0, log, log');
    SteppedTrans(l, f, g, h, i, off, src[..tot], piece);
    if done {
      assert src[..tot] + piece == src[..tot + m];
      CoveredMore(Row(g, i), Row(h, i), off, tot, m);
    } else {
      assert src[..tot] + piece == src[..tot];
      CoveredKeeps(Row(g, i), Row(h, i), off, tot);
    }
  }

  lemma ProgressOk(l: Layout, f: Fs, g: Fs, i: nat, off: nat, src: seq<byte>, tot: nat, y: Tally, log0: Log, log: Log)
    requires Progress(l, f, g, i, off, src, tot, y, log0, log)
    ensures Consistent(l, g.blocks, g.inodes, g.owner) && i < |g.inodes| && tot <= |src|
  {
  }

  // ---------------------------------------------------------------- the whole of writei

  /** Between system calls: blocks and pointers agree, files have no holes, inodes on the disk are current. */
  ghost predicate Stable(l: Layout, f: Fs) {
    FsOk(l, f) && FilesOk(f) && Synced(l, f.blocks, f.inodes)
  }

  /** Everything that a `writei` of `data` at `off` leaves: the bytes, the size, and nothing else. */
  ghost predicate Written(l: Layout, f: Fs, f': Fs, i: nat, off: nat, data: seq<byte>) {
    && Stable(l, f) && Stable(l, f') && |f.inodes| == |f'.inodes| && i < |f.inodes|
    && Wrote(f, f', i, off, data)
    && (forall j :: 0 <= j < |f.inodes| && j != i ==> f'.inodes[j] == f.inodes[j])
    && f'.inodes[i] == f.inodes[i].(addrs := f'.inodes[i].addrs,
                                    size := if off + |data| > f.inodes[i].size then off + |data| else f.inodes[i].size)
    && Keeps(T(f), T(f'), i)
  }

  lemma SetSize(l: Layout, f: Fs, i: nat, size: nat)
    requires FsOk(l, f) && i < |f.inodes| && size < WORD
    ensures
      var f' := f.(inodes := f.inodes[i := f.inodes[i].(size := size)]);
      FsOk(l, f') && T(f') == T(f)
  {
    var f' := f.(inodes := f.inodes[i := f.inodes[i].(size := size)]);
    assert forall j :: 0 <= j < |f.inodes| ==> Ptrs(f'.blocks, f'.inodes[j]) == Ptrs(f.blocks, f.inodes[j]);
    assert T(f') == T(f);
  }

  lemma SameT(f: Fs, g: Fs, h: Fs, i: nat, off: nat, data: seq<byte>)
    requires AllOk(f.inodes) && AllOk(g.inodes) && AllOk(h.inodes) && |f.inodes| == |g.inodes| == |h.inodes|
    requires Wrote(f, g, i, off, data) && T(h) == T(g)
    requires SameBytes(g.blocks, T(g), h.blocks, T(h))
    ensures Wrote(f, h, i, off, data)
  {
  }

  lemma WroteSame(f: Fs, f': Fs, i: nat)
    requires AllOk(f.inodes) && AllOk(f'.inodes) && |f.inodes| == |f'.inodes| && Wrote(f, f', i, 0, [])
    ensures SameBytes(f.blocks, T(f), f'.blocks, T(f'))
  {
  }

  /** The end of `writei`: the new size, then `iupdate`. */
  lemma Finish(l: Layout, f: Fs, g: Fs, h: Fs, i: nat, off: nat, data: seq<byte>)
    requires l.Valid() && |h.blocks| == l.size && |h.inodes| == l.ninodes && AllOk(h.inodes) && i < l.ninodes
    requires Stable(l, f) && i < |f.inodes| && off <= f.inodes[i].size && off + |data| <= MAXBYTES
    requires Stepped(l, f, g, i, off, data) && i < |g.inodes| && Covered(Row(g, i), off, |data|)
    requires h == Resized(g, i, if off + |data| > g.inodes[i].size then off + |data| else g.inodes[i].size)
    ensures Written(l, f, Updated(l, h, i), i, off, data)
  {
    hide Owned, Table, Wrote, SameBytes, SameMeta, DiskInode, Keeps, T, FilesOk, Synced, Covered;
    var size := if off + |data| > g.inodes[i].size then off + |data| else g.inodes[i].size;
    SetSize(l, g, i, size);
    UpdatedEffect(l, h, i);
    var f' := Updated(l, h, i);
    WroteSame(h, f', i);
    SameT(f, g, f', i, off, data);
    FinishFiles(l, f, f', i, off, |data|, size);
    FinishSynced(l, f, g, h, i);
  }

  function Resized(g: Fs, i: nat, size: nat): Fs {
    if i < |g.inodes| then g.(inodes := g.inodes[i := g.inodes[i].(size := size)]) else g
  }

  lemma FinishFiles(l: Layout, f: Fs, f': Fs, i: nat, off: nat, tot: nat, size: nat)
    requires FsOk(l, f) && FilesOk(f) && FsOk(l, f') && i < |f.inodes| == |f'.inodes| && off <= f.inodes[i].size
    requires off + tot <= MAXBYTES
    requires Keeps(T(f), T(f'), i) && Covered(Row(f', i), off, tot)
    requires size == if off + tot > f.inodes[i].size then off + tot else f.inodes[i].size
    requires f'.inodes[i].size == size && forall j :: 0 <= j < |f.inodes| && j != i ==> f'.inodes[j] == f.inodes[j]
    ensures FilesOk(f')
  {
    StillHoleFree(Row(f, i), Row(f', i), f.inodes[i].size, off, tot);
    forall j | 0 <= j < |f.inodes| ensures f'.inodes[j].size <= MAXBYTES && HoleFree(Row(f', j), f'.inodes[j].size) {
      assert f.inodes[j].size <= MAXBYTES && HoleFree(Row(f, j), f.inodes[j].size);
      assert j != i ==> Row(f', j) == Row(f, j);
    }
  }

  lemma FinishSynced(l: Layout, f: Fs, g: Fs, h: Fs, i: nat)
    requires FsOk(l, f) && FsOk(l, h) && Synced(l, f.blocks, f.inodes) && i < |f.inodes| == |h.inodes|
    requires SameMeta(l, f.blocks, g.blocks) && h.blocks == g.blocks
    requires forall j :: 0 <= j < |f.inodes| && j != i ==> h.inodes[j] == f.inodes[j]
    ensures FsOk(l, Updated(l, h, i)) && Synced(l, Updated(l, h, i).blocks, h.inodes)
  {
    UpdatedEffect(l, h, i);
    forall j | 0 <= j < l.ninodes ensures DiskInode(l, Updated(l, h, i).blocks, j) == h.inodes[j] {
      IBlockInRange(l, j);
      assert DiskInode(l, f.blocks, j) == f.inodes[j];
    }
  }

  lemma WrittenNothing(l: Layout, f: Fs, i: nat, off: nat)
    requires Stable(l, f) && i < |f.inodes| && off <= f.inodes[i].size
    ensures Written(l, f, f, i, off, [])
  {
    assert f.inodes[i] == f.inodes[i].(addrs := f.inodes[i].addrs, size := f.inodes[i].size);
  }

  lemma WrittenAppend(l: Layout, f: Fs, g: Fs, h: Fs, i: nat, off: nat, d: seq<byte>, e: seq<byte>)
    requires Written(l, f, g, i, off, d) && Written(l, g, h, i, off + |d|, e)
    ensures Written(l, f, h, i, off, d + e)
  {
    hide Owned, FilesOk, Synced;
    WroteAppend(f, g, h, i, off, d, e);
  }

  /** A `writei` of at most three blocks into a hole-free file logs at most MAXOPBLOCKS distinct blocks. */
  lemma ChunkFitsOp(l: Layout, f: Fs, g: Fs, i: nat, off: nat, src: seq<byte>, tot: nat, y: Tally, log: Log, ib: nat)
    requires Stable(l, f) && i < |f.inodes| && off <= f.inodes[i].size && |src| <= 3 * BSIZE
    requires Progress(l, f, g, i, off, src, tot, y, Log({}, {}), log)
    ensures Logged(Log(log.bits, log.blks + {ib})) <= 10
  {
    VisitBound(off, |src|, y.visited);
    if off % BSIZE != 0 {
      FirstBlockThere(Row(f, i), f.inodes[i].size, off);
    }
    TenBlocks(Row(f, i), Row(g, i), off / BSIZE, y, log, ib);
  }

  /** No block is free, and the one for byte `x` of inode `i` is missing. */
  ghost predicate NoSpace(l: Layout, f: Fs, i: nat, x: nat) {
    && Full(l, f.blocks) && AllOk(f.inodes) && i < |f.inodes| && x / BSIZE < MAXFILE
    && T(f)[i][DataPos(x / BSIZE)] == 0
  }

  /** The copy of every chunk that starts before `n` works: chunks start at 0 and at the beginning of each block. */
  ghost predicate Copies(off: nat, n: nat, faults: set<nat>) {
    forall t :: 0 <= t < n && (t == 0 || (off + t) % BSIZE == 0) ==> t !in faults
  }

  lemma CopiesNext(off: nat, tot: nat, m: nat, faults: set<nat>)
    requires Copies(off, tot, faults) && tot !in faults && (off + tot) % BSIZE + m <= BSIZE
    ensures Copies(off, tot + m, faults)
  {
    forall t | 0 <= t < tot + m && (t == 0 || (off + t) % BSIZE == 0) ensures t !in faults {
      if t > tot {
        InsideChunk(off + tot, t - tot);
      }
    }
  }

  lemma InsideChunk(x: nat, d: nat)
    requires 0 < d && x % BSIZE + d < BSIZE
    ensures (x + d) % BSIZE != 0
  {
  }

  lemma StillFull(l: Layout, g: Fs, i: nat, size: nat, x: nat)
    requires FsOk(l, g) && i < |g.inodes| && size < WORD && NoSpace(l, g, i, x)
    ensures FsOk(l, Resized(g, i, size)) && NoSpace(l, Updated(l, Resized(g, i, size), i), i, x)
  {
    var h := Resized(g, i, size);
    SetSize(l, g, i, size);
    UpdatedEffect(l, h, i);
    hide T, FsOk;
    IBlockInRange(l, i);
    BitsSame(l, h.blocks, l.IBlock(i), PutInode(h.blocks[l.IBlock(i)], i % IPB, h.inodes[i]));
    forall c | 0 <= c < l.size ensures Bit(l, Updated(l, h, i).blocks, c) {
      assert Bits(l, Updated(l, h, i).blocks)[c] == Bits(l, h.blocks)[c];
    }
  }
}
