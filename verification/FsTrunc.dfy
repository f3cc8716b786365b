/** Truncation: which blocks a partly truncated inode still owns. */
module FsTrunc {
  import opened Words
  import opened FsLayout
  import opened FsState
  import opened FsFrames
  import opened FsFiles
  import opened FsWrite

  /** The pointers with positions `done` of inode `i` cleared. */
  ghost function Cleared(t: seq<seq<nat>>, i: nat, done: set<nat>): (r: seq<seq<nat>>)
    ensures |r| == |t|
    ensures forall j :: 0 <= j < |t| ==> |r[j]| == |t[j]|
    ensures forall j, k :: 0 <= j < |t| && 0 <= k < |t[j]| ==> r[j][k] == if j == i && k in done then 0 else t[j][k]
  {
    seq(|t|,
        j requires 0 <= j < |t| => seq(|t[j]|, k requires 0 <= k < |t[j]| => if j == i && k in done then 0
        else t[j][k]))
  }

  /** The owners that remain, and the bitmap that remains. */
  ghost function Left(owner: map<nat, Slot>, i: nat, done: set<nat>): map<nat, Slot> {
    map b | b in owner && !(owner[b].i == i && owner[b].k in done) :: owner[b]
  }

  ghost function BitsLeft(bits: seq<bool>, owner: map<nat, Slot>, i: nat, done: set<nat>): (r: seq<bool>)
    ensures |r| == |bits|
    ensures forall b :: 0 <= b < |bits| ==> r[b] == (bits[b] && !(b in owner && owner[b].i == i && owner[b].k in done))
  {
    seq(|bits|, b requires 0 <= b < |bits| => bits[b] && !(b in owner && owner[b].i == i && owner[b].k in done))
  }

  ghost predicate Partly(l: Layout, bits0: seq<bool>, t0: seq<seq<nat>>, owner0: map<nat, Slot>, i: nat,
      done: set<nat>, bits: seq<bool>) {
    bits == BitsLeft(bits0, owner0, i, done) && Owned(l, bits, Cleared(t0, i, done), Left(owner0, i, done))
  }

  lemma PartlyStart(l: Layout, bits: seq<bool>, t: seq<seq<nat>>, owner: map<nat, Slot>, i: nat)
    requires Owned(l, bits, t, owner)
    ensures Partly(l, bits, t, owner, i, {}, bits)
  {
    assert Cleared(t, i, {}) == t by {
      forall j | 0 <= j < |t| ensures Cleared(t, i, {})[j] == t[j] { }
    }
    assert Left(owner, i, {}) == owner;
    assert BitsLeft(bits, owner, i, {}) == bits;
  }

  lemma ClearedMore(t: seq<seq<nat>>, i: nat, done: set<nat>, k: nat)
    requires i < |t| && k < |t[i]|
    ensures Cleared(t, i, done + {k}) == Set(Cleared(t, i, done), i, k, 0)
  {
    forall j | 0 <= j < |t| ensures Cleared(t, i, done + {k})[j] == Set(Cleared(t, i, done), i, k, 0)[j] {
    }
  }

  lemma LeftMore(l: Layout, bits: seq<bool>, t: seq<seq<nat>>, owner: map<nat, Slot>, i: nat, done: set<nat>, k: nat)
    requires OwnersPoint(l, t, owner) && PointersOwned(t, owner) && i < |t| && k < |t[i]|
    requires 0 < l.datastart && (t[i][k] != 0 ==> t[i][k] < |bits|)
    ensures Left(owner, i, done + {k}) == Left(owner, i, done) - {t[i][k]}
    ensures BitsLeft(bits, owner, i, done + {k}) ==
            if t[i][k] == 0 then BitsLeft(bits, owner, i, done) else BitsLeft(bits, owner, i, done)[t[i][k] := false]
  {
    OnlyOneAt(l, t, owner, i, k);
    var p := t[i][k];
    assert p == 0 ==> 0 !in owner;
    assert p != 0 ==> p in owner && owner[p] == Slot(i, k);
    hide OwnersPoint, PointersOwned, Left, BitsLeft;
    LeftOne(owner, i, done, k, p);
    BitsLeftOne(bits, owner, i, done, k, p);
  }

  lemma LeftOne(owner: map<nat, Slot>, i: nat, done: set<nat>, k: nat, p: nat)
    requires forall c :: c in owner && owner[c] == Slot(i, k) ==> c == p
    requires p in owner ==> owner[p] == Slot(i, k)
    ensures Left(owner, i, done + {k}) == Left(owner, i, done) - {p}
  {
    forall c | c in owner ensures (owner[c].i == i && owner[c].k == k) <==> c == p {
      assert owner[c] == Slot(owner[c].i, owner[c].k);
    }
  }

  lemma BitsLeftOne(bits: seq<bool>, owner: map<nat, Slot>, i: nat, done: set<nat>, k: nat, p: nat)
    requires forall c :: c in owner && owner[c] == Slot(i, k) ==> c == p
    requires if p == 0 then 0 !in owner else p < |bits| && p in owner && owner[p] == Slot(i, k)
    ensures BitsLeft(bits, owner, i, done + {k}) ==
            if p == 0 then BitsLeft(bits, owner, i, done) else BitsLeft(bits, owner, i, done)[p := false]
  {
    forall c | c in owner ensures (owner[c].i == i && owner[c].k == k) <==> c == p {
      assert owner[c] == Slot(owner[c].i, owner[c].k);
    }
  }

  /** An empty position needs no freeing. */
  lemma PartlySkip(l: Layout, bits0: seq<bool>, t0: seq<seq<nat>>, owner0: map<nat, Slot>, i: nat, done: set<nat>,
      bits: seq<bool>, k: nat)
    requires l.Valid() && Owned(l, bits0, t0, owner0) && Partly(l, bits0, t0, owner0, i, done, bits)
    requires i < |t0| && k < |t0[i]| && t0[i][k] == 0
    ensures Partly(l, bits0, t0, owner0, i, done + {k}, bits)
  {
    LeftMore(l, bits0, t0, owner0, i, done, k);
    ClearedMore(t0, i, done, k);
    SetSame(Cleared(t0, i, done), i, k);
    assert 0 !in Left(owner0, i, done);
    assert Left(owner0, i, done) - {0} == Left(owner0, i, done);
  }

  lemma SetSame(t: seq<seq<nat>>, i: nat, k: nat)
    requires i < |t| && k < |t[i]|
    ensures Set(t, i, k, t[i][k]) == t
  {
    assert t[i][k := t[i][k]] == t[i];
  }

  /** Freeing the block of a position that has one: its bit is set, so `bfree` does not panic. */
  lemma PartlyFree(l: Layout, bits0: seq<bool>, t0: seq<seq<nat>>, owner0: map<nat, Slot>, i: nat, done: set<nat>,
      bits: seq<bool>, k: nat)
    requires l.Valid() && Owned(l, bits0, t0, owner0) && Partly(l, bits0, t0, owner0, i, done, bits)
    requires i < |t0| && k < |t0[i]| && t0[i][k] != 0 && k !in done
    ensures t0[i][k] < |bits| && l.datastart <= t0[i][k] < l.size && bits[t0[i][k]]
    ensures Partly(l, bits0, t0, owner0, i, done + {k}, bits[t0[i][k] := false])
  {
    var t, owner := Cleared(t0, i, done), Left(owner0, i, done);
    assert t[i][k] == t0[i][k];
    Detach(l, bits, t, owner, i, k);
    LeftMore(l, bits0, t0, owner0, i, done, k);
    ClearedMore(t0, i, done, k);
  }

  lemma OnlyOneAt(l: Layout, t: seq<seq<nat>>, owner: map<nat, Slot>, i: nat, k: nat)
    requires OwnersPoint(l, t, owner) && i < |t| && k < |t[i]|
    ensures forall c :: c in owner && owner[c] == Slot(i, k) ==> c == t[i][k]
  {
  }

  // ---------------------------------------------------------------- on the blocks

  ghost predicate SameButBitmap(l: Layout, blocks: seq<Block>, blocks': seq<Block>) {
    |blocks| == |blocks'| && forall b ::
        0 <= b < |blocks| && !(l.bmapstart <= b < l.datastart) ==> blocks'[b] == blocks[b]
  }

  /** Positions `done` of inode `i` have been freed on the disk; `f` is the state before. */
  ghost predicate Truncating(l: Layout, f: Fs, i: nat, done: set<nat>, blocks: seq<Block>) {
    && FsOk(l, f) && i < |f.inodes| && SameButBitmap(l, f.blocks, blocks)
    && Partly(l, Bits(l, f.blocks), T(f), f.owner, i, done, Bits(l, blocks))
  }

  lemma TruncStart(l: Layout, f: Fs, i: nat)
    requires FsOk(l, f) && i < |f.inodes|
    ensures Truncating(l, f, i, {}, f.blocks)
  {
    PartlyStart(l, Bits(l, f.blocks), T(f), f.owner, i);
  }

  lemma TruncSkip(l: Layout, f: Fs, i: nat, done: set<nat>, blocks: seq<Block>, k: nat)
    requires Truncating(l, f, i, done, blocks) && k < NPTR && Ptr(f.blocks, f.inodes[i], k) == 0
    ensures Truncating(l, f, i, done + {k}, blocks)
  {
    assert T(f)[i][k] == 0;
    PartlySkip(l, Bits(l, f.blocks), T(f), f.owner, i, done, Bits(l, blocks), k);
  }

  lemma TruncFree(l: Layout, f: Fs, i: nat, done: set<nat>, blocks: seq<Block>, k: nat)
    requires Truncating(l, f, i, done, blocks) && k < NPTR && Ptr(f.blocks, f.inodes[i], k) != 0 && k !in done
    ensures
      var b := Ptr(f.blocks, f.inodes[i], k);
      && b < l.size && l.BBlock(b) < |blocks| && Bit(l, blocks, b)
      && Truncating(l, f, i, done + {k}, blocks[l.BBlock(b) := PutBit(blocks[l.BBlock(b)], b, false)])
  {
    hide Owned, Cleared, Left, BitsLeft;
    var b := Ptr(f.blocks, f.inodes[i], k);
    assert T(f)[i][k] == b;
    PartlyFree(l, Bits(l, f.blocks), T(f), f.owner, i, done, Bits(l, blocks), k);
    BBlockInRange(l, b);
    BitsPut(l, blocks, b, false);
  }

  /** Inode `i` without content. */
  function Emptied(ino: Inode): Inode {
    ino.(addrs := seq(NDIRECT + 1, _ => 0), size := 0)
  }

  /** Every block of inode `i` is free, every other block is as it was, and no other file has changed. */
  ghost predicate Truncated(l: Layout, f: Fs, f': Fs, i: nat) {
    && FsOk(l, f) && FsOk(l, f') && i < |f.inodes|
    && f'.inodes == f.inodes[i := Emptied(f.inodes[i])]
    && (forall b :: 0 <= b < l.size ==> (Bit(l, f'.blocks, b) <==> Bit(l, f.blocks, b) && !Owns(f, i, b)))
    && (forall j, x :: 0 <= j < |f.inodes| && 0 <= x < MAXBYTES ==>
          FileByte(f'.blocks, T(f')[j], x) == if j == i then 0 else FileByte(f.blocks, T(f)[j], x))
    && (forall j :: 0 <= j < |f.inodes| && j != i ==> T(f')[j] == T(f)[j])
  }

  /** Block `b` is one of the blocks of inode `i`. */
  ghost predicate Owns(f: Fs, i: nat, b: nat)
    requires AllOk(f.inodes) && i < |f.inodes|
  {
    exists k :: 0 <= k < NPTR && T(f)[i][k] == b && b != 0
  }

  lemma OwnsIff(l: Layout, f: Fs, i: nat, b: nat)
    requires FsOk(l, f) && i < |f.inodes|
    ensures Owns(f, i, b) <==> b in f.owner && f.owner[b].i == i
  {
    OwnsIffTable(l, T(f), f.owner, i, b);
  }

  lemma OwnsIffTable(l: Layout, t: seq<seq<nat>>, owner: map<nat, Slot>, i: nat, b: nat)
    requires 0 < l.datastart && Rows(t) && PointersOwned(t, owner) && OwnersPoint(l, t, owner) && i < |t|
    ensures (exists k :: 0 <= k < NPTR && t[i][k] == b && b != 0) <==> b in owner && owner[b].i == i
  {
    if b in owner && owner[b].i == i {
      assert t[i][owner[b].k] == b && owner[b].k < NPTR;
    }
  }

  lemma TruncRow(blocks: seq<Block>, blocks': seq<Block>, ino: Inode)
    requires ino.Ok() && |blocks| == |blocks'|
    requires 0 < ino.addrs[NDIRECT] < |blocks| ==> blocks'[ino.addrs[NDIRECT]] == blocks[ino.addrs[NDIRECT]]
    ensures Ptrs(blocks', ino) == Ptrs(blocks, ino)
  {
  }

  lemma TruncTable(l: Layout, f: Fs, i: nat, done: set<nat>, blocks: seq<Block>)
    requires FsOk(l, f) && i < |f.inodes| && SameButBitmap(l, f.blocks, blocks)
    requires (forall k :: 0 <= k < NPTR ==> k in done)
    ensures
      var inodes := f.inodes[i := Emptied(f.inodes[i])];
      AllOk(inodes) && Table(blocks, inodes) == Cleared(T(f), i, done)
  {
    var inodes := f.inodes[i := Emptied(f.inodes[i])];
    var t := Cleared(T(f), i, done);
    assert Ptrs(blocks, inodes[i]) == t[i];
    forall j | 0 <= j < |inodes| && j != i ensures Ptrs(blocks, inodes[j]) == t[j] {
      if f.inodes[j].addrs[NDIRECT] != 0 {
        IndirectOwned(l, f.blocks, f.inodes, f.owner, j);
      }
      TruncRow(f.blocks, blocks, f.inodes[j]);
      assert t[j] == T(f)[j];
    }
  }

  lemma TruncDone(l: Layout, f: Fs, i: nat, done: set<nat>, blocks: seq<Block>)
    requires Truncating(l, f, i, done, blocks) && (forall k :: 0 <= k < NPTR ==> k in done)
    ensures Truncated(l, f, Fs(blocks, f.inodes[i := Emptied(f.inodes[i])], Left(f.owner, i, done)), i)
  {
    hide FileByte, Table, Ptrs, Owned, Partly, SameButBitmap, Bit, Bits, Emptied, Left, Owns;
    var f' := Fs(blocks, f.inodes[i := Emptied(f.inodes[i])], Left(f.owner, i, done));
    TruncOwned(l, f, i, done, blocks);
    TruncBits(l, f, i, done, blocks);
    TruncBytes(l, f, f', i, done);
    assert forall j :: 0 <= j < |f.inodes| && j != i ==> T(f')[j] == T(f)[j];
  }

  lemma TruncOwned(l: Layout, f: Fs, i: nat, done: set<nat>, blocks: seq<Block>)
    requires Truncating(l, f, i, done, blocks) && (forall k :: 0 <= k < NPTR ==> k in done)
    ensures
      var inodes := f.inodes[i := Emptied(f.inodes[i])];
      Consistent(l, blocks, inodes, Left(f.owner, i, done)) && Table(blocks, inodes) == Cleared(T(f), i, done)
  {
    hide Owned, Table, Left, Bits;
    TruncTable(l, f, i, done, blocks);
  }

  lemma TruncBits(l: Layout, f: Fs, i: nat, done: set<nat>, blocks: seq<Block>)
    requires Truncating(l, f, i, done, blocks) && (forall k :: 0 <= k < NPTR ==> k in done)
    ensures forall b :: 0 <= b < l.size ==> (Bit(l, blocks, b) <==> Bit(l, f.blocks, b) && !Owns(f, i, b))
  {
    forall b | 0 <= b < l.size ensures Bit(l, blocks, b) <==> Bit(l, f.blocks, b) && !Owns(f, i, b) {
      OwnsIff(l, f, i, b);
      assert Bits(l, blocks)[b] == Bit(l, blocks, b) && Bits(l, f.blocks)[b] == Bit(l, f.blocks, b);
      assert b in f.owner && f.owner[b].i == i ==> f.owner[b].k < NPTR;
    }
  }

  lemma TruncBytes(l: Layout, f: Fs, f': Fs, i: nat, done: set<nat>)
    requires Truncating(l, f, i, done, f'.blocks) && (forall k :: 0 <= k < NPTR ==> k in done)
    requires AllOk(f'.inodes) && T(f') == Cleared(T(f), i, done)
    ensures forall j, x :: 0 <= j < |f.inodes| && 0 <= x < MAXBYTES ==>
              FileByte(f'.blocks, T(f')[j], x) == if j == i then 0 else FileByte(f.blocks, T(f)[j], x)
  {
    hide Partly, SameButBitmap, FileByte, Cleared, T, Owned;
    forall j, x | 0 <= j < |f.inodes| && 0 <= x < MAXBYTES
      ensures FileByte(f'.blocks, T(f')[j], x) == if j == i then 0 else FileByte(f.blocks, T(f)[j], x)
    {
      TruncByte(l, f, f', i, done, j, x);
    }
  }

  lemma TruncByte(l: Layout, f: Fs, f': Fs, i: nat, done: set<nat>, j: nat, x: nat)
    requires Truncating(l, f, i, done, f'.blocks) && (forall k :: 0 <= k < NPTR ==> k in done)
    requires AllOk(f'.inodes) && T(f') == Cleared(T(f), i, done) && j < |f.inodes| && x < MAXBYTES
    ensures FileByte(f'.blocks, T(f')[j], x) == if j == i then 0 else FileByte(f.blocks, T(f)[j], x)
  {
    hide Partly, Table, Ptrs;
    var k := DataPos(x / BSIZE);
    var p := T(f)[j][k];
    assert p != 0 ==> p in f.owner;
  }

  // ---------------------------------------------------------------- the loops of itrunc

  /** Exactly the positions below `hi` and those from `alsoFrom` to `alsoTo` are in `done`. */
  ghost predicate Upto(done: set<nat>, hi: nat, alsoFrom: nat, alsoTo: nat) {
    forall k: nat :: k in done <==> k < hi || alsoFrom <= k < alsoTo
  }

  /** The first `k` addresses cleared. */
  function ZeroFirst(addrs: seq<nat>, k: nat): (r: seq<nat>)
    requires k <= |addrs|
    ensures |r| == |addrs|
    ensures forall j :: 0 <= j < |addrs| ==> r[j] == if j < k then 0 else addrs[j]
  {
    seq(|addrs|, j requires 0 <= j < |addrs| => if j < k then 0 else addrs[j])
  }

  /** Without an indirect block the remaining positions are empty. */
  lemma {:induction false} TruncNoIndirect(l: Layout, f: Fs, i: nat, done: set<nat>, blocks: seq<Block>, k: nat)
      returns (done': set<nat>)
    requires Truncating(l, f, i, done, blocks) && NDIRECT <= k <= NPTR && f.inodes[i].addrs[NDIRECT] == 0
    requires forall p :: 0 <= p < k ==> p in done
    ensures Truncating(l, f, i, done', blocks) && forall p :: 0 <= p < NPTR ==> p in done'
    decreases NPTR - k
  {
    hide Truncating;
    if k == NPTR {
      done' := done;
    } else {
      TruncatingOk(l, f, i, done, blocks);
      TruncSkip(l, f, i, done, blocks, k);
      done' := TruncNoIndirect(l, f, i, done + {k}, blocks, k + 1);
    }
  }

  lemma TruncatingOk(l: Layout, f: Fs, i: nat, done: set<nat>, blocks: seq<Block>)
    requires Truncating(l, f, i, done, blocks)
    ensures l.Valid() && |blocks| == |f.blocks| == l.size && AllOk(f.inodes) && i < |f.inodes| == l.ninodes
    ensures FsOk(l, f)
    ensures
      var ind := f.inodes[i].addrs[NDIRECT];
      ind != 0 ==> ind < |blocks| && blocks[ind] == f.blocks[ind]
  {
    if f.inodes[i].addrs[NDIRECT] != 0 {
      IndirectOwned(l, f.blocks, f.inodes, f.owner, i);
    }
  }

  /** Storing the emptied inode completes the truncation. */
  lemma TruncUpdate(l: Layout, f: Fs, g: Fs, i: nat)
    requires Truncated(l, f, g, i)
    ensures Truncated(l, f, Updated(l, g, i), i)
  {
    UpdatedEffect(l, g, i);
    var h := Updated(l, g, i);
    WroteSame(g, h, i);
    TruncUpdateBits(l, g, i);
  }

  lemma TruncStable(l: Layout, f: Fs, g: Fs, i: nat)
    requires Stable(l, f) && Truncated(l, f, g, i) && SameMeta(l, f.blocks, g.blocks)
    ensures Stable(l, Updated(l, g, i))
  {
    UpdatedEffect(l, g, i);
    FinishSynced(l, f, g, g, i);
    var h := Updated(l, g, i);
    forall j | 0 <= j < |h.inodes| ensures h.inodes[j].size <= MAXBYTES && HoleFree(Row(h, j), h.inodes[j].size) {
      assert f.inodes[j].size <= MAXBYTES && HoleFree(Row(f, j), f.inodes[j].size);
      assert j != i ==> Row(h, j) == Row(f, j);
    }
  }

  lemma TruncUpdateBits(l: Layout, g: Fs, i: nat)
    requires FsOk(l, g) && i < |g.inodes|
    ensures forall b :: 0 <= b < l.size ==> Bit(l, Updated(l, g, i).blocks, b) == Bit(l, g.blocks, b)
  {
    IBlockInRange(l, i);
    BitsSame(l, g.blocks, l.IBlock(i), PutInode(g.blocks[l.IBlock(i)], i % IPB, g.inodes[i]));
    forall b | 0 <= b < l.size ensures Bit(l, Updated(l, g, i).blocks, b) == Bit(l, g.blocks, b) {
      assert Bits(l, Updated(l, g, i).blocks)[b] == Bits(l, g.blocks)[b];
    }
  }

}
