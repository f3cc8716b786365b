/** The block and inode code of kernel/fs.c on the file system's own state. */
module FsOps {
  import opened Words
  import opened FsLayout
  import opened FsState
  import opened FsFrames
  import opened FsFiles
  import opened FsWrite
  import opened FsTrunc
  import opened LogHeader
  import opened Transactions

  /** The pointer in bit position `bi` of the bitmap block that starts at block `b`. */
  lemma BitPosition(b: nat, bi: nat)
    requires b % BPB == 0 && bi < BPB
    ensures (b + bi) / BPB == b / BPB && (b + bi) % BPB == bi
  {
  }

  /** The blocks hold a file system on which the kernel's invariant holds. */
  ghost predicate Mountable(l: Layout, blocks: seq<Block>) {
    exists f: Fs :: f.blocks == blocks && Stable(l, f)
  }

  /** `blocks` is `start` after the logged updates, and the updates touch logged blocks outside the log area only. */
  ghost predicate Explained(l: Layout, start: seq<Block>, tx: seq<Update>, blocks: seq<Block>, logged: set<nat>) {
    && blocks == Apply(start, tx)
    && forall k :: 0 <= k < |tx| ==> tx[k].b in logged && l.inodestart <= tx[k].b < |start|
  }

  lemma ExplainedNext(l: Layout, start: seq<Block>, tx: seq<Update>, blocks: seq<Block>, logged: set<nat>, b: nat,
      v: Block)
    requires Explained(l, start, tx, blocks, logged) && l.inodestart <= b < |blocks|
    ensures Explained(l, start, tx + [Update(b, v)], blocks[b := v], logged + {b})
  {
    assert (tx + [Update(b, v)])[..|tx|] == tx;
  }

  /** An operation may log it: few distinct blocks, none of them in the boot block, super block or log. */
  ghost predicate SmallTx(l: Layout, tx: seq<Update>) {
    |Touched(tx)| <= MAXOPBLOCKS && forall k :: 0 <= k < |tx| ==> l.inodestart <= tx[k].b < l.size
  }

  /** Small transactions, with a good file system before and after each of them. */
  ghost predicate GoodHistory(l: Layout, first: seq<Block>, txs: seq<seq<Update>>) {
    && (forall k :: 0 <= k < |txs| ==> SmallTx(l, txs[k]))
    && forall k :: 0 <= k <= |txs| ==> Mountable(l, After(first, txs[..k]))
  }

  lemma ExplainedSmall(l: Layout, start: seq<Block>, tx: seq<Update>, blocks: seq<Block>, logged: set<nat>)
    requires Explained(l, start, tx, blocks, logged) && |logged| <= MAXOPBLOCKS && |blocks| == l.size
    ensures SmallTx(l, tx)
  {
    TouchedExactly(tx, logged);
    DistinctFits(Touched(tx), logged);
  }

  lemma HistoryNext(l: Layout, first: seq<Block>, txs: seq<seq<Update>>, tx: seq<Update>)
    requires GoodHistory(l, first, txs) && SmallTx(l, tx) && Mountable(l, Apply(After(first, txs), tx))
    ensures GoodHistory(l, first, txs + [tx]) && After(first, txs + [tx]) == Apply(After(first, txs), tx)
  {
    hide Mountable, SmallTx;
    var all := txs + [tx];
    assert all[..|txs|] == txs && all[..|all|] == all;
    forall k | 0 <= k <= |all| ensures Mountable(l, After(first, all[..k])) {
      if k <= |txs| {
        assert all[..k] == txs[..k];
      }
    }
  }

  /** All of them are blocks of the bitmap. */
  ghost predicate BitmapOnly(l: Layout, bits: set<nat>) {
    forall b :: b in bits ==> l.bmapstart <= b <= l.bmapstart + (l.size - 1) / BPB
  }

  lemma {:induction false} RangeSize(s: set<nat>, lo: nat, hi: nat)
    requires lo <= hi && forall b :: b in s ==> lo <= b < hi
    ensures |s| <= hi - lo
    decreases hi - lo
  {
    if lo < hi {
      RangeSize(s - {hi - 1}, lo, hi - 1);
    } else {
      assert s == {};
    }
  }

  /** A truncation logs the inode's block and at most the whole bitmap. */
  lemma TruncLogged(l: Layout, bits: set<nat>, b: nat)
    requires l.Valid() && BitmapOnly(l, bits) && l.size <= (MAXOPBLOCKS - 1) * BPB
    ensures Logged(Log(bits, {b})) <= MAXOPBLOCKS
  {
    RangeSize(bits, l.bmapstart, l.bmapstart + (l.size - 1) / BPB + 1);
    UnionSize(bits, {b});
  }

  class FileSystem {
    const l: Layout
    var blocks: seq<Block>
    var inodes: seq<Inode>
    ghost var owner: map<nat, Slot>
    /** Bitmap blocks, and other blocks, that `log_write` has recorded since the transaction began. */
    ghost var bitLog: set<nat>
    ghost var blkLog: set<nat>
    /** The updates of the running transaction; those of the transactions before it; the blocks before them all. */
    ghost var tx: seq<Update>
    ghost var txs: seq<seq<Update>>
    ghost var first: seq<Block>

    /** `fsinit` on the blocks of a good file system. */
    constructor (l: Layout, blocks: seq<Block>, inodes: seq<Inode>, ghost owner: map<nat, Slot>)
      requires Stable(l, Fs(blocks, inodes, owner))
      ensures this.l == l && Snap() == Fs(blocks, inodes, owner) && first == blocks && txs == []
      ensures Recorded() && Archived()
    {
      this.l, this.blocks, this.inodes, this.owner := l, blocks, inodes, owner;
      tx, txs, first, bitLog, blkLog := [], [], blocks, {}, {};
      new;
      assert Mountable(l, Fs(blocks, inodes, owner).blocks);
    }

    /** The blocks are those before the transaction with the logged updates made, in order. */
    ghost predicate Recorded()
      reads this`blocks, this`bitLog, this`blkLog, this`tx, this`txs, this`first
    {
      Explained(l, After(first, txs), tx, blocks, bitLog + blkLog)
    }

    ghost predicate Archived()
      reads this`txs, this`first
    {
      GoodHistory(l, first, txs)
    }

    ghost predicate Good()
      reads this
    {
      Consistent(l, blocks, inodes, owner)
    }

    /** Changes a buffer that does not belong to the bitmap and logs it. */
    method LogBlock(b: nat, v: Block)
      requires l.inodestart <= b < |blocks| && Recorded()
      modifies this`blocks, this`blkLog, this`tx
      ensures blocks == old(blocks)[b := v] && blkLog == old(blkLog) + {b} && Recorded()
    {
      hide Explained;
      ExplainedNext(l, After(first, txs), tx, blocks, bitLog + blkLog, b, v);
      blocks := blocks[b := v];
      blkLog := blkLog + {b};
      tx := tx + [Update(b, v)];
      assert old(bitLog + blkLog) + {b} == bitLog + blkLog;
    }

    method LogBits(b: nat, v: Block)
      requires l.inodestart <= b < |blocks| && Recorded()
      modifies this`blocks, this`bitLog, this`tx
      ensures blocks == old(blocks)[b := v] && bitLog == old(bitLog) + {b} && Recorded()
    {
      hide Explained;
      ExplainedNext(l, After(first, txs), tx, blocks, bitLog + blkLog, b, v);
      blocks := blocks[b := v];
      bitLog := bitLog + {b};
      tx := tx + [Update(b, v)];
      assert old(bitLog + blkLog) + {b} == bitLog + blkLog;
    }

    /** The two loops of `balloc`: the first block whose bit is clear. */
    method FindFree() returns (b: nat)
      requires l.Valid() && |blocks| == l.size
      ensures b <= l.size && forall c :: 0 <= c < b ==> Bit(l, blocks, c)
      ensures b < l.size ==> !Bit(l, blocks, b)
    {
      b := 0;
      while b < l.size
        invariant b % BPB == 0
        invariant forall c :: 0 <= c < b && c < l.size ==> Bit(l, blocks, c)
      {
        BBlockInRange(l, b);
        var bp := blocks[l.BBlock(b)];
        var bi := 0;
        while bi < BPB && b + bi < l.size
          invariant 0 <= bi <= BPB && b + bi <= l.size
          invariant forall c :: 0 <= c < b + bi ==> Bit(l, blocks, c)
        {
          BitPosition(b, bi);
          if !BitOf(bp[bi / 8], bi % 8) {
            return b + bi;
          }
          bi := bi + 1;
        }
        b := b + BPB;
      }
      return l.size;
    }

    /** Marks the first free block in use and zeroes it. Returns 0, and does nothing, if the disk is full. */
    method Balloc() returns (b: nat)
      requires Recorded() && Good()
      modifies this`blocks, this`bitLog, this`blkLog, this`tx
      ensures Recorded()
      ensures b == 0 ==> Full(l, old(blocks))
      ensures b == 0 ==> unchanged(this)
      ensures b != 0 ==> b < l.size && !Bit(l, old(blocks), b) && blocks == Allocated(l, old(blocks), b)
      ensures b != 0 ==> bitLog == old(bitLog) + {l.BBlock(b)} && blkLog == old(blkLog) + {b}
    {
      hide Recorded;
      b := FindFree();
      if b == l.size {
        return 0;
      }
      BBlockInRange(l, b);
      assert Bits(l, blocks)[0] == Bit(l, blocks, 0);
      LogBits(l.BBlock(b), PutBit(blocks[l.BBlock(b)], b, true));
      LogBlock(b, Zeros(BSIZE));
    }

    /** Allocates a block for `ip->addrs[k]`; 0 if there is none. */
    method GrowInode(i: nat, k: nat) returns (b: nat)
      requires Recorded() && Good() && i < |inodes| && k <= NDIRECT && inodes[i].addrs[k] == 0
      modifies this`blocks, this`inodes, this`owner, this`bitLog, this`blkLog, this`tx
      ensures Recorded()
      ensures b == 0 ==> Full(l, old(blocks))
      ensures b == 0 ==> unchanged(this)
      ensures b != 0 ==> owner == old(owner)[b := Slot(i, k)]
      ensures b != 0 ==> Grown(l, old(blocks), old(inodes), old(owner), i, k, b, blocks, inodes)
      ensures b != 0 ==> inodes == old(inodes)[i := old(inodes)[i].(addrs := old(inodes)[i].addrs[k := b])]
      ensures b != 0 ==> bitLog == old(bitLog) + {l.BBlock(b)} && blkLog == old(blkLog) + {b}
    {
      hide Recorded;
      b := Balloc();
      if b != 0 {
        GrowAddr(l, old(blocks), inodes, owner, i, k, b);
        inodes := inodes[i := inodes[i].(addrs := inodes[i].addrs[k := b])];
        owner := owner[b := Slot(i, k)];
      }
    }

    /** Allocates a block for entry `k` of the indirect block; 0 if there is none. */
    method GrowIndirect(i: nat, k: nat) returns (b: nat)
      requires Recorded() && Good() && i < |inodes| && NDIRECT < k < NPTR && inodes[i].addrs[NDIRECT] != 0
      requires Ptr(blocks, inodes[i], k) == 0
      modifies this`blocks, this`owner, this`bitLog, this`blkLog, this`tx
      ensures Recorded()
      ensures b == 0 ==> Full(l, old(blocks))
      ensures b == 0 ==> unchanged(this)
      ensures b != 0 ==> owner == old(owner)[b := Slot(i, k)]
      ensures b != 0 ==> Grown(l, old(blocks), inodes, old(owner), i, k, b, blocks, inodes)
      ensures b != 0 ==> bitLog == old(bitLog) + {l.BBlock(b)} && blkLog == old(blkLog) + {b, inodes[i].addrs[NDIRECT]}
    {
      hide Recorded, Owned, SameBytes, SameMeta, Table, U32;
      EntryIs(l, Snap(), i, k - 1);
      var ind := inodes[i].addrs[NDIRECT];
      var bp := blocks[ind];
      b := Balloc();
      if b != 0 {
        GrowEntry(l, old(blocks), inodes, owner, i, k, b);
        AllocatedKeeps(l, old(blocks), inodes, owner, b, ind);
        LogBlock(ind, PutU32(bp, 4 * (k - NDIRECT - 1), b));
        owner := owner[b := Slot(i, k)];
      }
    }

    ghost function TxLog(): Log
      reads this
    {
      Log(bitLog, blkLog)
    }

    ghost function Snap(): Fs
      reads this
    {
      Fs(blocks, inodes, owner)
    }

    /** The disk address of block `bn` of inode `i`, allocated if there is none; 0 if the disk is full. */
    method Bmap(i: nat, bn: nat) returns (addr: nat)
      requires Recorded() && Good() && i < |inodes| && bn < MAXFILE
      modifies this`blocks, this`inodes, this`owner, this`bitLog, this`blkLog, this`tx
      ensures Recorded()
      ensures Bmapped(l, old(Snap()), Snap(), i, bn) && addr == T(Snap())[i][DataPos(bn)]
      ensures LogGrows(Row(old(Snap()), i), Row(Snap(), i), bn, old(TxLog()), TxLog())
      ensures old(T(Snap())[i][DataPos(bn)]) != 0 ==> unchanged(this)
      ensures addr == 0 ==> Full(l, blocks)
    {
      hide Recorded, Owned, SameBytes, SameMeta, Extends, OnlyAddrs;
      ghost var f := Snap();
      BmapNone(l, f, i, bn);
      if bn < NDIRECT {
        addr := inodes[i].addrs[bn];
        if addr == 0 {
          addr := GrowInode(i, bn);
          if addr != 0 {
            BmapGrow(l, f, Snap(), i, bn, bn, addr);
          }
        }
      } else {
        addr := BmapIndirect(i, bn);
      }
    }

    /** The indirect block of inode `i`, allocated if there is none. */
    method LoadIndirect(i: nat, bn: nat) returns (ind: nat)
      requires Recorded() && Good() && i < |inodes| && NDIRECT <= bn < MAXFILE
      modifies this`blocks, this`inodes, this`owner, this`bitLog, this`blkLog, this`tx
      ensures Recorded()
      ensures Bmapped(l, old(Snap()), Snap(), i, bn) && ind == T(Snap())[i][NDIRECT] == inodes[i].addrs[NDIRECT]
      ensures T(Snap())[i][DataPos(bn)] == old(T(Snap())[i][DataPos(bn)])
      ensures blkLog <= old(blkLog) + ({ind} - {0})
      ensures |bitLog| <= |old(bitLog)| + if old(T(Snap())[i][NDIRECT]) == 0 && ind != 0 then 1 else 0
      ensures old(inodes[i].addrs[NDIRECT]) != 0 || ind == 0 ==> unchanged(this)
      ensures ind == 0 ==> T(Snap())[i][DataPos(bn)] == 0 && Full(l, blocks)
    {
      hide Recorded, Owned, SameBytes, SameMeta, Extends, OnlyAddrs;
      ghost var f := Snap();
      BmapNone(l, f, i, bn);
      ind := inodes[i].addrs[NDIRECT];
      if ind == 0 {
        ind := GrowInode(i, NDIRECT);
        if ind != 0 {
          BmapGrow(l, f, Snap(), i, bn, NDIRECT, ind);
        }
      }
    }

    /** The entry for block `bn` of the indirect block, allocated if there is none. */
    method LoadEntry(i: nat, bn: nat) returns (addr: nat)
      requires Recorded() && Good() && i < |inodes| && NDIRECT <= bn < MAXFILE && inodes[i].addrs[NDIRECT] != 0
      modifies this`blocks, this`owner, this`bitLog, this`blkLog, this`tx
      ensures Recorded()
      ensures Bmapped(l, old(Snap()), Snap(), i, bn) && addr == T(Snap())[i][DataPos(bn)]
      ensures T(Snap())[i][NDIRECT] == old(T(Snap())[i][NDIRECT])
      ensures LogGrows(Row(old(Snap()), i), Row(Snap(), i), bn, old(TxLog()), TxLog())
      ensures old(T(Snap())[i][DataPos(bn)]) != 0 ==> unchanged(this)
      ensures addr == 0 ==> Full(l, blocks)
    {
      hide Recorded, Owned, SameBytes, SameMeta, Table, U32;
      ghost var f := Snap();
      BmapNone(l, f, i, bn);
      EntryIs(l, f, i, bn);
      var ind := inodes[i].addrs[NDIRECT];
      addr := U32(blocks[ind], 4 * (bn - NDIRECT));
      if addr == 0 {
        addr := GrowIndirect(i, bn + 1);
        if addr != 0 {
          BmapGrow(l, f, Snap(), i, bn, bn + 1, addr);
        }
      }
    }

    /** The second half of `bmap`. */
    method BmapIndirect(i: nat, bn: nat) returns (addr: nat)
      requires Recorded() && Good() && i < |inodes| && NDIRECT <= bn < MAXFILE
      modifies this`blocks, this`inodes, this`owner, this`bitLog, this`blkLog, this`tx
      ensures Recorded()
      ensures Bmapped(l, old(Snap()), Snap(), i, bn) && addr == T(Snap())[i][DataPos(bn)]
      ensures LogGrows(Row(old(Snap()), i), Row(Snap(), i), bn, old(TxLog()), TxLog())
      ensures old(T(Snap())[i][DataPos(bn)]) != 0 ==> unchanged(this)
      ensures addr == 0 ==> Full(l, blocks)
    {
      hide Recorded, Owned, SameBytes, SameMeta, Extends, OnlyAddrs, Table, LogGrows;
      ghost var f, log := Snap(), TxLog();
      var ind := LoadIndirect(i, bn);
      ghost var g, log1 := Snap(), TxLog();
      IndirectLog(Row(f, i), Row(g, i), Row(g, i), bn, log, log1, log1);
      if ind == 0 {
        return 0;
      }
      addr := LoadEntry(i, bn);
      IndirectLog(Row(f, i), Row(g, i), Row(Snap(), i), bn, log, log1, TxLog());
      BmapTrans(l, f, g, Snap(), i, bn);
    }

    /** One turn of the loop in `writei`: map the block, copy `piece` into its buffer, log it. `copied` says
        whether the copy from the caller succeeds. */
    method WriteChunk(i: nat, off: nat, piece: seq<byte>, copied: bool) returns (done: bool)
      requires Recorded() && Good() && i < |inodes| && 0 < |piece| && off + |piece| <= MAXBYTES
      requires off % BSIZE + |piece| <= BSIZE
      modifies this`blocks, this`inodes, this`owner, this`bitLog, this`blkLog, this`tx
      ensures Recorded()
      ensures Turn(l, old(Snap()), Snap(), i, off, piece, done, old(TxLog()), TxLog())
      ensures if done then copied else !copied || NoSpace(l, Snap(), i, off)
    {
      hide Recorded, Owned, SameBytes, SameMeta, Wrote, Extends, Keeps, OnlyAddrs, Table, Overlay;
      ghost var f := Snap();
      var addr := Bmap(i, off / BSIZE);
      ghost var g := Snap();
      BmapStepped(l, f, g, i, off / BSIZE, off);
      if addr == 0 || !copied {
        return false;
      }
      DataStepped(l, g, i, off, piece);
      LogBlock(addr, Overlay(blocks[addr], off % BSIZE, piece));
      assert [] + piece == piece;
      SteppedTrans(l, f, g, Snap(), i, off, [], piece);
      return true;
    }

    /** The loop of `writei`. The copy of the bytes from `tot` on fails if `tot` is in `faults`. */
    method WriteLoop(i: nat, off: nat, src: seq<byte>, faults: set<nat>) returns (tot: nat, ghost y: Tally)
      requires Recorded() && Good() && i < |inodes| && off + |src| <= MAXBYTES
      modifies this`blocks, this`inodes, this`owner, this`bitLog, this`blkLog, this`tx
      ensures Recorded()
      ensures Progress(l, old(Snap()), Snap(), i, off, src, tot, y, old(TxLog()), TxLog())
      ensures (tot < |src| ==> tot in faults || NoSpace(l, Snap(), i, off + tot)) && Copies(off, tot, faults)
    {
      hide Recorded, Progress, Consistent, Turn, Copies, NoSpace;
      CopiesNone(off, faults);
      ghost var f := Snap();
      LoopStart(l, f, i, off, src, TxLog());
      tot, y := 0, NOTHING;
      while tot < |src|
        invariant Recorded() && Progress(l, f, Snap(), i, off, src, tot, y, old(TxLog()), TxLog())
        invariant Ready(f, Snap(), off, |src|, tot, y) && tot <= |src| && Copies(off, tot, faults)
      {
        ProgressOk(l, f, Snap(), i, off, src, tot, y, old(TxLog()), TxLog());
        ghost var g := Snap();
        ghost var log := TxLog();
        ChunkEnds(off, tot, |src|, y.visited);
        var m := ChunkLen(off, tot, |src|);
        var done := WriteChunk(i, off + tot, src[tot..tot + m], tot !in faults);
        y := LoopStep(l, f, g, Snap(), i, off, src, tot, m, done, y, old(TxLog()), log, TxLog());
        if !done {
          return;
        }
        CopiesNext(off, tot, m, faults);
        tot := tot + m;
      }
    }

    /** Copies the current inode `i` into its inode block. */
    method Iupdate(i: nat)
      requires Recorded() && Good() && i < |inodes|
      modifies this`blocks, this`blkLog, this`tx
      ensures Recorded()
      ensures Snap() == Updated(l, old(Snap()), i) && blkLog == old(blkLog) + {l.IBlock(i)}
    {
      hide Recorded;
      IBlockInRange(l, i);
      LogBlock(l.IBlock(i), PutInode(blocks[l.IBlock(i)], i % IPB, inodes[i]));
    }

    /** Writes `src` at offset `off` of inode `i`; returns the number of bytes written, or -1. */
    method Writei(i: nat, off: nat, src: seq<byte>, faults: set<nat>) returns (r: int)
      requires Recorded() && Stable(l, Snap()) && i < |inodes| && off < WORD && |src| < WORD
      modifies this`blocks, this`inodes, this`owner, this`bitLog, this`blkLog, this`tx
      ensures Recorded()
      ensures off > old(inodes[i].size) || off + |src| > MAXBYTES ==> r == -1 && unchanged(this)
      ensures off <= old(inodes[i].size) && off + |src| <= MAXBYTES ==>
                0 <= r <= |src| && Written(l, old(Snap()), Snap(), i, off, src[..r])
      ensures 0 <= r < |src| ==> r in faults || NoSpace(l, Snap(), i, off + r)
      ensures r >= 0 ==> Copies(off, r, faults)
      ensures old(TxLog()) == Log({}, {}) && |src| <= 3 * BSIZE ==> Logged(TxLog()) <= 10
    {
      hide Recorded, Stable, Consistent, Written, Progress, NoSpace, Copies, Logged, Updated;
      ghost var f := Snap();
      StableOk(l, f);
      if off > inodes[i].size || off + |src| >= WORD {
        LoggedNone();
        return -1;
      }
      if off + |src| > MAXBYTES {
        LoggedNone();
        return -1;
      }
      ghost var y;
      r, y := WriteLoop(i, off, src, faults);
      ghost var g := Snap();
      ProgressOk(l, f, g, i, off, src, r, y, old(TxLog()), TxLog());
      if old(TxLog()) == Log({}, {}) && |src| <= 3 * BSIZE {
        ChunkFitsOp(l, f, g, i, off, src, r, y, TxLog(), l.IBlock(i));
      }
      var size := if off + r > inodes[i].size then off + r else inodes[i].size;
      WriteEnd(l, f, g, i, off, src, r, y, old(TxLog()), TxLog());
      if r < |src| && r !in faults {
        assert Resized(g, i, size).inodes[i].size == size;
        StillFull(l, g, i, size, off + r);
      }
      inodes := inodes[i := inodes[i].(size := size)];
      Iupdate(i);
    }

    /** Clears the bit of block `b`; panics if it is clear already. */
    method Bfree(b: nat) returns (panics: bool)
      requires Recorded() && l.Valid() && |blocks| == l.size && b < l.size
      modifies this`blocks, this`bitLog, this`tx
      ensures Recorded() && (BitmapOnly(l, old(bitLog)) ==> BitmapOnly(l, bitLog))
      ensures l.BBlock(b) < l.size && (panics <==> !Bit(l, old(blocks), b))
      ensures panics ==> unchanged(this)
      ensures !panics ==> blocks == old(blocks)[l.BBlock(b) := PutBit(old(blocks)[l.BBlock(b)], b, false)]
      ensures !panics ==> bitLog == old(bitLog) + {l.BBlock(b)}
    {
      hide Recorded;
      BBlockInRange(l, b);
      var bp := blocks[l.BBlock(b)];
      var bi := b % BPB;
      if !BitOf(bp[bi / 8], bi % 8) {
        return true;
      }
      LogBits(l.BBlock(b), PutBit(bp, b, false));
      return false;
    }

    /** The first loop of `itrunc`. */
    method FreeDirect(i: nat, ghost f: Fs) returns (ghost done: set<nat>)
      requires Recorded() && FsOk(l, f) && i < |f.inodes| && Snap() == f
      modifies this`blocks, this`inodes, this`bitLog, this`tx
      ensures Recorded() && (BitmapOnly(l, old(bitLog)) ==> BitmapOnly(l, bitLog))
      ensures Truncating(l, f, i, done, blocks) && Upto(done, NDIRECT, NDIRECT, NDIRECT)
      ensures inodes == f.inodes[i := f.inodes[i].(addrs := ZeroFirst(f.inodes[i].addrs, NDIRECT))]
    {
      hide Recorded, BitmapOnly, Truncating, Owned;
      TruncStart(l, f, i);
      done := {};
      var k := 0;
      assert ZeroFirst(f.inodes[i].addrs, 0) == f.inodes[i].addrs;
      while k < NDIRECT
        invariant Recorded() && (BitmapOnly(l, old(bitLog)) ==> BitmapOnly(l, bitLog))
        invariant 0 <= k <= NDIRECT && Upto(done, k, k, k) && Truncating(l, f, i, done, blocks)
        invariant inodes == f.inodes[i := f.inodes[i].(addrs := ZeroFirst(f.inodes[i].addrs, k))]
      {
        TruncatingOk(l, f, i, done, blocks);
        assert ZeroFirst(f.inodes[i].addrs, k + 1) == ZeroFirst(f.inodes[i].addrs, k)[k := 0];
        if inodes[i].addrs[k] != 0 {
          TruncFree(l, f, i, done, blocks, k);
          var panics := Bfree(inodes[i].addrs[k]);
          assert !panics;
          inodes := inodes[i := inodes[i].(addrs := inodes[i].addrs[k := 0])];
        } else {
          TruncSkip(l, f, i, done, blocks, k);
          assert ZeroFirst(f.inodes[i].addrs, k + 1) == ZeroFirst(f.inodes[i].addrs, k);
        }
        done := done + {k};
        k := k + 1;
      }
    }

    /** The loop over the entries of the indirect block. */
    method FreeEntries(i: nat, bp: Block, ghost f: Fs, ghost done0: set<nat>) returns (ghost done: set<nat>)
      requires Recorded() && Truncating(l, f, i, done0, blocks) && Upto(done0, NDIRECT, NDIRECT, NDIRECT)
      requires i < |f.inodes| && AllOk(f.inodes) && 0 < f.inodes[i].addrs[NDIRECT] < |f.blocks|
      requires bp == f.blocks[f.inodes[i].addrs[NDIRECT]]
      modifies this`blocks, this`bitLog, this`tx
      ensures Recorded() && (BitmapOnly(l, old(bitLog)) ==> BitmapOnly(l, bitLog))
      ensures Truncating(l, f, i, done, blocks) && Upto(done, NDIRECT, NDIRECT + 1, NPTR)
    {
      hide Recorded, BitmapOnly, Truncating, Owned;
      done := done0;
      var j := 0;
      while j < NINDIRECT
        invariant Recorded() && (BitmapOnly(l, old(bitLog)) ==> BitmapOnly(l, bitLog))
        invariant 0 <= j <= NINDIRECT && Upto(done, NDIRECT, NDIRECT + 1, NDIRECT + 1 + j)
        invariant Truncating(l, f, i, done, blocks)
      {
        TruncatingOk(l, f, i, done, blocks);
        var a := U32(bp, 4 * j);
        if a != 0 {
          TruncFree(l, f, i, done, blocks, NDIRECT + 1 + j);
          var panics := Bfree(a);
          assert !panics;
        } else {
          TruncSkip(l, f, i, done, blocks, NDIRECT + 1 + j);
        }
        done := done + {NDIRECT + 1 + j};
        j := j + 1;
      }
    }

    /** Frees the indirect block of inode `i` and the blocks in it, if there is one. */
    method FreeIndirect(i: nat, ghost f: Fs, ghost done0: set<nat>) returns (ghost done: set<nat>)
      requires Recorded() && Truncating(l, f, i, done0, blocks) && Upto(done0, NDIRECT, NDIRECT, NDIRECT)
      requires FsOk(l, f) && i < |inodes| == |f.inodes| && |inodes[i].addrs| == NDIRECT + 1
      requires inodes[i].addrs[NDIRECT] == f.inodes[i].addrs[NDIRECT]
      modifies this`blocks, this`bitLog, this`tx
      ensures Recorded() && (BitmapOnly(l, old(bitLog)) ==> BitmapOnly(l, bitLog))
      ensures Truncating(l, f, i, done, blocks) && forall k :: 0 <= k < NPTR ==> k in done
    {
      hide Recorded, BitmapOnly, Truncating, Owned;
      done := done0;
      TruncatingOk(l, f, i, done, blocks);
      var ind := inodes[i].addrs[NDIRECT];
      if ind != 0 {
        done := FreeEntries(i, blocks[ind], f, done);
        TruncatingOk(l, f, i, done, blocks);
        TruncFree(l, f, i, done, blocks, NDIRECT);
        var panics := Bfree(ind);
        assert !panics;
        done := done + {NDIRECT};
      } else {
        done := TruncNoIndirect(l, f, i, done, blocks, NDIRECT);
      }
    }

    /** Frees every block of inode `i`, including blocks past its size, and empties it. No free panics. */
    method Itrunc(i: nat)
      requires Recorded() && Good() && i < |inodes|
      modifies this`blocks, this`inodes, this`owner, this`bitLog, this`blkLog, this`tx
      ensures Recorded() && (BitmapOnly(l, old(bitLog)) ==> BitmapOnly(l, bitLog))
      ensures Truncated(l, old(Snap()), Snap(), i)
      ensures old(Stable(l, Snap())) ==> Stable(l, Snap())
      ensures blkLog == old(blkLog) + {l.IBlock(i)}
    {
      hide Recorded, BitmapOnly, Truncating, Truncated, Consistent, FilesOk, Synced;
      ghost var f := Snap();
      ghost var done := FreeDirect(i, f);
      TruncatingOk(l, f, i, done, blocks);
      done := FreeIndirect(i, f, done);
      inodes := inodes[i := inodes[i].(addrs := inodes[i].addrs[NDIRECT := 0], size := 0)];
      assert inodes[i].addrs == seq(NDIRECT + 1, _ => 0);
      assert inodes == f.inodes[i := Emptied(f.inodes[i])];
      owner := Left(owner, i, done);
      TruncDone(l, f, i, done, blocks);
      ghost var g := Snap();
      TruncatedOk(l, f, g, i);
      TruncatingMeta(l, f, i, done, blocks);
      TruncUpdate(l, f, g, i);
      if Stable(l, f) {
        TruncStable(l, f, g, i);
      }
      Iupdate(i);
    }

    /** The transaction in which `open` empties a file. */
    method OpenTrunc(i: nat)
      requires tx == [] && Recorded() && Archived() && Stable(l, Snap()) && i < |inodes|
      requires l.size <= (MAXOPBLOCKS - 1) * BPB
      modifies this
      ensures Truncated(l, old(Snap()), Snap(), i) && Stable(l, Snap())
      ensures tx == [] && Recorded() && Archived() && first == old(first) && old(txs) < txs
    {
      hide Recorded, Archived, Truncated, FilesOk, Synced, Owned, Logged;
      BeginOp();
      Itrunc(i);
      TruncLogged(l, bitLog, l.IBlock(i));
      assert blkLog == {l.IBlock(i)};
      EndOp();
    }

    /** Reads up to `n` bytes at offset `off` of inode `i`. The copy of the bytes from `tot` on fails if `tot` is in
        `faults`. A file without holes is never changed by reading it. */
    method Readi(i: nat, off: nat, n: nat, faults: set<nat>) returns (r: int, dst: seq<byte>)
      requires Recorded() && Stable(l, Snap()) && i < |inodes| && off < WORD && n < WORD
      modifies this`blocks, this`inodes, this`owner, this`bitLog, this`blkLog, this`tx
      ensures unchanged(this)
      ensures off > inodes[i].size || off + n >= WORD ==> r == 0 && dst == []
      ensures off <= inodes[i].size && off + n < WORD ==>
                && (r == -1 ==> |dst| < n && off + |dst| < inodes[i].size && |dst| in faults)
                && (r != -1 ==> r == |dst| <= n && off + r <= inodes[i].size && (r == n || off + r == inodes[i].size))
                && Copies(off, |dst|, faults)
                && forall x :: 0 <= x < |dst| ==> dst[x] == FileByte(blocks, T(Snap())[i], off + x)
    {
      hide Recorded, Owned, Synced, Bmapped, Table, LogGrows, Full, U32, Copies, FileByte;
      CopiesNone(off, faults);
      dst := [];
      if off > inodes[i].size || off + n >= WORD {
        return 0, [];
      }
      ghost var f := Snap();
      assert HoleFree(Row(f, i), inodes[i].size);
      var len := if off + n > inodes[i].size then inodes[i].size - off else n;
      var tot := 0;
      while tot < len
        invariant 0 <= tot == |dst| <= len && unchanged(this) && Copies(off, tot, faults)
        invariant ReadBack(f, i, off, dst)
      {
        assert (off + tot) / BSIZE * BSIZE <= off + tot;
        assert Cell(Row(f, i), (off + tot) / BSIZE) != 0;
        var addr := Bmap(i, (off + tot) / BSIZE);
        var m := ChunkLen(off, tot, len);
        if tot in faults {
          return -1, dst;
        }
        CellInRange(l, f, i, (off + tot) / BSIZE);
        var o := (off + tot) % BSIZE;
        ReadMore(f, i, off, dst, addr, m);
        dst := dst + blocks[addr][o..o + m];
        CopiesNext(off, tot, m, faults);
        tot := tot + m;
      }
      r := tot;
    }

    /** What writei has written, readi gives back. */
    method WriteRead(i: nat, off: nat, src: seq<byte>, faults: set<nat>) returns (n: int, dst: seq<byte>)
      requires Recorded() && Stable(l, Snap()) && i < |inodes| && off <= inodes[i].size && off + |src| <= MAXBYTES
      modifies this`blocks, this`inodes, this`owner, this`bitLog, this`blkLog, this`tx
      ensures Recorded() && Stable(l, Snap()) && 0 <= n <= |src| && dst == src[..n]
      ensures n < |src| ==> n in faults || NoSpace(l, Snap(), i, off + n)
    {
      hide Recorded, Stable, NoSpace, Copies, Wrote, Keeps;
      ghost var f := Snap();
      StableOk(l, f);
      n := Writei(i, off, src, faults);
      StableOk(l, Snap());
      var r;
      r, dst := Readi(i, off, n, {});
      WrittenBack(l, f, Snap(), i, off, src[..n], dst);
    }

    method BeginOp()
      requires tx == [] && Recorded()
      modifies this`bitLog, this`blkLog
      ensures TxLog() == Log({}, {}) && Recorded()
    {
      bitLog, blkLog := {}, {};
    }

    /** Ends the transaction: its updates are handed to the log. */
    method EndOp()
      requires Recorded() && Archived() && Stable(l, Snap()) && Logged(TxLog()) <= MAXOPBLOCKS
      modifies this`tx, this`txs
      ensures Recorded() && Archived() && tx == [] && txs == old(txs) + [old(tx)]
    {
      hide Owned, FilesOk, Synced, Touched, SmallTx;
      assert Mountable(l, Snap().blocks);
      ExplainedSmall(l, After(first, txs), tx, blocks, bitLog + blkLog);
      HistoryNext(l, first, txs, tx);
      tx, txs := [], txs + [tx];
    }

    /** The inode case of `filewrite`: one transaction for every three blocks. Returns |src| or -1, and the new
        file offset. */
    method Filewrite(i: nat, off: nat, src: seq<byte>, faults: map<nat, set<nat>>) returns (ret: int, newOff: nat)
      requires Stable(l, Snap()) && i < |inodes| && off < WORD && |src| < 0x8000_0000
      requires tx == [] && Recorded() && Archived()
      modifies this
      ensures Stable(l, Snap()) && tx == [] && Recorded() && Archived() && first == old(first) && old(txs) <= txs
      ensures off <= newOff <= off + |src| && ret == if newOff == off + |src| then |src| else -1
      ensures old(inodes[i].size) < off ==> newOff == off && Snap() == old(Snap())
      ensures off <= old(inodes[i].size) ==> Written(l, old(Snap()), Snap(), i, off, src[..newOff - off])
      ensures ret == -1 && off <= old(inodes[i].size) ==>
                var d := newOff - off;
                var k := d - d % CHUNK;
                || NoSpace(l, Snap(), i, newOff) || (k in faults && d - k in faults[k])
                || (d == k && off + (if |src| - k > CHUNK then k + CHUNK else |src|) > MAXBYTES)
      ensures AllCopies(off, newOff - off, faults)
    {
      hide Recorded, Archived, Stable, Logged, Written, NoSpace, Copies, AllCopies;
      AllCopiesNone(off, faults);
      ghost var f := Snap();
      var max := (MAXOPBLOCKS - 1 - 1 - 2) / 2 * BSIZE;
      assert max == CHUNK;
      var k := 0;
      newOff := off;
      if off <= inodes[i].size {
        WrittenNothing(l, f, i, off);
      }
      assert src[..0] == [];
      ghost var n := 0;
      while k < |src|
        invariant 0 <= k <= |src| && newOff == off + k < WORD && Stable(l, Snap()) && i < |inodes|
        invariant k == |src| || k == n * CHUNK
        invariant tx == [] && Recorded() && Archived() && first == old(first) && old(txs) <= txs
        invariant f.inodes[i].size < off ==> k == 0 && Snap() == f
        invariant off <= f.inodes[i].size ==> Written(l, f, Snap(), i, off, src[..k])
        invariant AllCopies(off, k, faults)
      {
        ghost var g := Snap();
        var n1 := if |src| - k > max then max else |src| - k;
        var r := WriteOne(i, newOff, src[k..k + n1], if k in faults then faults[k] else {});
        if off <= f.inodes[i].size {
          WrittenSize(l, f, g, i, off, src[..k]);
        }
        if r >= 0 {
          AllCopiesNext(off, n, r, faults);
          newOff := newOff + r;
          assert src[k..k + n1][..r] == src[k..k + r] && src[..k] + src[k..k + r] == src[..k + r];
          WrittenAppend(l, f, g, Snap(), i, off, src[..k], src[k..k + r]);
        }
        if r != n1 {
          ChunkStart(n, if r < 0 then 0 else r);
          break;
        }
        k, n := k + r, n + 1;
      }
      ret := if k == |src| then |src| else -1;
    }

    /** One transaction of filewrite. */
    method WriteOne(i: nat, off: nat, piece: seq<byte>, faults: set<nat>) returns (r: int)
      requires tx == [] && Recorded() && Archived()
      requires Stable(l, Snap()) && i < |inodes| && 0 < |piece| <= CHUNK && off < WORD
      modifies this
      ensures tx == [] && Recorded() && Archived() && first == old(first) && old(txs) <= txs
      ensures Stable(l, Snap()) && -1 <= r <= |piece| && i < |inodes| == |old(inodes)|
      ensures r == -1 ==> Snap() == old(Snap()) && (off > inodes[i].size || off + |piece| > MAXBYTES)
      ensures 0 <= r < |piece| ==> r in faults || NoSpace(l, Snap(), i, off + r)
      ensures r >= 0 ==> Copies(off, r, faults)
      ensures r >= 0 ==>
                Written(l, old(Snap()), Snap(), i, off, piece[..r]) && off <= old(inodes[i].size) && off + r <= MAXBYTES
    {
      hide Recorded, Archived, Owned, FilesOk, Synced, Wrote, Keeps, Table, Logged, OnlyAddrs, NoSpace, Copies;
      BeginOp();
      r := Writei(i, off, piece, faults);
      EndOp();
    }
  }

  lemma StableOk(l: Layout, f: Fs)
    requires Stable(l, f)
    ensures l.Valid() && |f.blocks| == l.size && |f.inodes| == l.ninodes && AllOk(f.inodes) && FsOk(l, f)
    ensures forall j :: 0 <= j < |f.inodes| ==> f.inodes[j].size <= MAXBYTES
  {
  }

  /** What is left to do after the loop of writei: the size and the inode. */
  lemma WriteEnd(l: Layout, f: Fs, g: Fs, i: nat, off: nat, src: seq<byte>, tot: nat, y: Tally, log0: Log, log: Log)
    requires Stable(l, f) && i < |f.inodes| && off <= f.inodes[i].size
    requires Progress(l, f, g, i, off, src, tot, y, log0, log) && tot <= |src| && i < |g.inodes|
    ensures
      var h := Resized(g, i, if off + tot > g.inodes[i].size then off + tot else g.inodes[i].size);
      && l.Valid() && |h.blocks| == l.size && |h.inodes| == l.ninodes && AllOk(h.inodes) && FsOk(l, h)
      && Written(l, f, Updated(l, h, i), i, off, src[..tot])
  {
    hide Owned, FilesOk, Synced, Wrote, Keeps, Covered, Tallied, Table, Written;
    var size := if off + tot > g.inodes[i].size then off + tot else g.inodes[i].size;
    SetSize(l, g, i, size);
    Finish(l, f, g, Resized(g, i, size), i, off, src[..tot]);
  }

  /** What one transaction of filewrite writes at most. */
  const CHUNK := 3 * BSIZE

  lemma ChunkStart(n: nat, r: nat)
    requires r < CHUNK
    ensures (n * CHUNK + r) % CHUNK == r
  {
  }

  /** No copy fails that belongs to the first `d` bytes; `faults[k]` is for the chunk that starts with byte `k`. */
  ghost predicate AllCopies(off: nat, d: nat, faults: map<nat, set<nat>>) {
    forall n: nat :: n * CHUNK in faults && n * CHUNK < d ==>
      Copies(off + n * CHUNK, if d - n * CHUNK < CHUNK then d - n * CHUNK else CHUNK, faults[n * CHUNK])
  }

  lemma AllCopiesNone(off: nat, faults: map<nat, set<nat>>)
    ensures AllCopies(off, 0, faults)
  {
  }

  lemma AllCopiesNext(off: nat, n: nat, r: nat, faults: map<nat, set<nat>>)
    requires AllCopies(off, n * CHUNK, faults) && r <= CHUNK
    requires Copies(off + n * CHUNK, r, if n * CHUNK in faults then faults[n * CHUNK] else {})
    ensures AllCopies(off, n * CHUNK + r, faults)
  {
    hide Copies;
    var d := n * CHUNK + r;
    forall j: nat | j * CHUNK in faults && j * CHUNK < d
      ensures Copies(off + j * CHUNK, if d - j * CHUNK < CHUNK then d - j * CHUNK else CHUNK, faults[j * CHUNK])
    {
      if j < n {
        assert j * CHUNK + CHUNK <= n * CHUNK;
      } else {
        assert j == n;
      }
    }
  }

  lemma CopiesNone(off: nat, faults: set<nat>)
    ensures Copies(off, 0, faults)
  {
  }

  lemma WrittenSize(l: Layout, f: Fs, g: Fs, i: nat, off: nat, data: seq<byte>)
    requires Written(l, f, g, i, off, data)
    ensures i < |f.inodes| == |g.inodes| && g.inodes[i].size >= off + |data|
  {
  }

  /** First the slot of the indirect block may be filled, then the slot of the data block. */
  lemma IndirectLog(row: seq<nat>, row1: seq<nat>, row2: seq<nat>, bn: nat, log: Log, log1: Log, log2: Log)
    requires |row| == |row1| == |row2| == NPTR && NDIRECT <= bn < MAXFILE && Cell(row1, bn) == Cell(row, bn)
    requires Ind(row2) == Ind(row1)
    requires log1.blks <= log.blks + ({Ind(row1)} - {0}) && |log1.bits| <= |log.bits| + if Ind(row) == 0
              && Ind(row1) != 0 then 1 else 0
    requires (row2 == row1 && log2 == log1) || LogGrows(row1, row2, bn, log1, log2)
    ensures LogGrows(row, row2, bn, log, log2)
  {
  }

  lemma WrittenBack(l: Layout, f: Fs, g: Fs, i: nat, off: nat, data: seq<byte>, dst: seq<byte>)
    requires Written(l, f, g, i, off, data) && off + |data| <= MAXBYTES && |dst| == |data| && AllOk(g.inodes)
    requires forall x :: 0 <= x < |dst| ==> dst[x] == FileByte(g.blocks, T(g)[i], off + x)
    ensures dst == data
  {
  }

  lemma CellInRange(l: Layout, f: Fs, i: nat, bn: nat)
    requires FsOk(l, f) && i < |f.inodes| && bn < MAXFILE && Cell(Row(f, i), bn) != 0
    ensures Cell(Row(f, i), bn) == T(f)[i][DataPos(bn)] < |f.blocks|
  {
    assert T(f)[i][DataPos(bn)] in f.owner;
  }

  /** The bytes of a piece of one block. */
  ghost predicate ReadBack(f: Fs, i: nat, off: nat, dst: seq<byte>) {
    AllOk(f.inodes) && i < |f.inodes| && off + |dst| <= MAXBYTES && forall x ::
      0 <= x < |dst| ==> dst[x] == FileByte(f.blocks, T(f)[i], off + x)
  }

  lemma ReadPiece(f: Fs, i: nat, off: nat, m: nat)
    requires AllOk(f.inodes) && i < |f.inodes| && off + m <= MAXBYTES && off < MAXBYTES && off % BSIZE + m <= BSIZE
    requires 0 < T(f)[i][DataPos(off / BSIZE)] < |f.blocks|
    ensures forall x :: off <= x < off + m ==>
              FileByte(f.blocks, T(f)[i], x) ==
                  f.blocks[T(f)[i][DataPos(off / BSIZE)]][off % BSIZE..off % BSIZE + m][x - off]
  {
    forall x | off <= x < off + m
      ensures FileByte(f.blocks, T(f)[i], x) ==
                f.blocks[T(f)[i][DataPos(off / BSIZE)]][off % BSIZE..off % BSIZE + m][x - off]
    {
      SameBlock(off, x, m);
    }
  }

  lemma ReadMore(f: Fs, i: nat, off: nat, dst: seq<byte>, addr: nat, m: nat)
    requires ReadBack(f, i, off, dst) && i < |f.inodes|
    requires
      var p := off + |dst|;
      p + m <= MAXBYTES && p < MAXBYTES && p % BSIZE + m <= BSIZE && addr == T(f)[i][DataPos(p / BSIZE)]
    requires 0 < addr < |f.blocks|
    ensures
      var o := (off + |dst|) % BSIZE;
      ReadBack(f, i, off, dst + f.blocks[addr][o..o + m])
  {
    hide T, FileByte;
    var p := off + |dst|;
    ReadPiece(f, i, p, m);
    var all := dst + f.blocks[addr][p % BSIZE..p % BSIZE + m];
    forall x | 0 <= x < |all| ensures all[x] == FileByte(f.blocks, T(f)[i], off + x) {
      assert x >= |dst| ==> all[x] == f.blocks[addr][p % BSIZE..p % BSIZE + m][off + x - p];
    }
  }

  lemma TruncatedOk(l: Layout, f: Fs, g: Fs, i: nat)
    requires Truncated(l, f, g, i)
    ensures Consistent(l, g.blocks, g.inodes, g.owner) && i < |g.inodes|
  {
  }

  lemma TruncatingMeta(l: Layout, f: Fs, i: nat, done: set<nat>, blocks: seq<Block>)
    requires Truncating(l, f, i, done, blocks)
    ensures SameMeta(l, f.blocks, blocks)
  {
  }

  lemma LoggedNone()
    ensures Logged(Log({}, {})) == 0
  {
  }

  /** `balloc` does not touch a data block that is in use. */
  lemma AllocatedKeeps(l: Layout, blocks: seq<Block>, inodes: seq<Inode>, owner: map<nat, Slot>, b: nat, x: nat)
    requires Consistent(l, blocks, inodes, owner) && b < l.size && !Bit(l, blocks, b) && x in owner
    ensures l.inodestart <= x < l.size && Allocated(l, blocks, b)[x] == blocks[x]
  {
    assert Bits(l, blocks)[b] == Bit(l, blocks, b);
    BBlockInRange(l, b);
  }
}
