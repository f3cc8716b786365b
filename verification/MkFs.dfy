/** mkfs: building the image that the kernel boots from. */
module MkFs {
  import opened Words
  import opened FsLayout
  import opened FsState
  import opened FsFrames
  import opened FsFiles
  import opened FsWrite

  /** The first `n` of `size` blocks are in use. */
  function FirstUsed(size: nat, n: nat): (bits: seq<bool>)
    ensures |bits| == size
    ensures forall b :: 0 <= b < size ==> bits[b] == (b < n)
  {
    seq(size, b => b < n)
  }

  ghost predicate ZeroFrom(blocks: seq<Block>, n: nat) {
    forall b :: n <= b < |blocks| ==> blocks[b] == Zeros(BSIZE)
  }

  ghost predicate ZeroBitmap(l: Layout, blocks: seq<Block>) {
    forall b :: l.bmapstart <= b < l.datastart && b < |blocks| ==> blocks[b] == Zeros(BSIZE)
  }

  /** The file has exactly the blocks that its size needs. */
  ghost predicate Exact(row: seq<nat>, size: nat) {
    forall bn :: 0 <= bn < MAXFILE ==> (Cell(row, bn) != 0 <==> bn * BSIZE < size)
  }

  ghost predicate AllExact(f: Fs) {
    forall i :: 0 <= i < |f.inodes| ==> f.inodes[i].size <= MAXBYTES && Exact(Row(f, i), f.inodes[i].size)
  }

  /** Blocks are handed out in order: those from `datastart` to `n` have one owner each, the rest is zero. */
  ghost predicate Building(l: Layout, f: Fs, n: nat) {
    && Sized(l, f.blocks, f.inodes) && l.datastart <= n <= l.size
    && Owned(l, FirstUsed(l.size, n), T(f), f.owner)
    && ZeroFrom(f.blocks, n) && ZeroBitmap(l, f.blocks)
  }

  /** Only slot `k` of inode `i` has changed, to the block `n` that was next in line; no byte of any file has. */
  ghost predicate Took(l: Layout, f: Fs, f': Fs, n: nat, i: nat, k: nat) {
    && Building(l, f, n) && Building(l, f', n + 1) && i < |f.inodes| && k < NPTR && n < l.size
    && T(f') == Set(T(f), i, k, n) && f'.owner == f.owner[n := Slot(i, k)]
    && OnlyAddrs(f.inodes, f'.inodes, i)
    && SameBytes(f.blocks, T(f), f'.blocks, T(f')) && SameMeta(l, f.blocks, f'.blocks)
  }

  lemma FirstUsedNext(size: nat, n: nat)
    requires n < size
    ensures FirstUsed(size, n)[n := true] == FirstUsed(size, n + 1)
  {
  }

  /** `freeblock++` into `din.addrs[k]`. */
  lemma TakeAddr(l: Layout, f: Fs, n: nat, i: nat, k: nat)
    requires Building(l, f, n) && n < l.size && i < |f.inodes| && k <= NDIRECT && f.inodes[i].addrs[k] == 0
    ensures
      var inodes' := f.inodes[i := f.inodes[i].(addrs := f.inodes[i].addrs[k := n])];
      Took(l, f, Fs(f.blocks, inodes', f.owner[n := Slot(i, k)]), n, i, k)
  {
    assert T(f)[i][k] == 0;
    Attach(l, FirstUsed(l.size, n), T(f), f.owner, i, k, n);
    FirstUsedNext(l.size, n);
    if k < NDIRECT {
      TableDirect(f.blocks, f.inodes, i, k, n);
    } else {
      TableIndirect(f.blocks, f.inodes, i, n);
    }
    FillHoleSameBytes(f.blocks, T(f), i, k, n);
  }

  /** `freeblock++` into an entry of the indirect block. */
  lemma TakeEntry(l: Layout, f: Fs, n: nat, i: nat, k: nat)
    requires Building(l, f, n) && n < l.size && i < |f.inodes| && NDIRECT < k < NPTR
    requires f.inodes[i].addrs[NDIRECT] != 0 && Ptr(f.blocks, f.inodes[i], k) == 0
    ensures f.inodes[i].addrs[NDIRECT] < |f.blocks|
    ensures
      var ind := f.inodes[i].addrs[NDIRECT];
      var blocks' := f.blocks[ind := PutU32(f.blocks[ind], 4 * (k - NDIRECT - 1), n)];
      Took(l, f, Fs(blocks', f.inodes, f.owner[n := Slot(i, k)]), n, i, k)
  {
    var ind := f.inodes[i].addrs[NDIRECT];
    var t := T(f);
    IndirectOwned(l, f.blocks, f.inodes, f.owner, i);
    forall j | 0 <= j < |f.inodes| && j != i ensures f.inodes[j].addrs[NDIRECT] != ind {
      if f.inodes[j].addrs[NDIRECT] != 0 { IndirectOwned(l, f.blocks, f.inodes, f.owner, j); }
    }
    assert t[i][k] == 0;
    Attach(l, FirstUsed(l.size, n), t, f.owner, i, k, n);
    FirstUsedNext(l.size, n);
    TableEntry(f.blocks, f.inodes, i, k, n);
    var v := PutU32(f.blocks[ind], 4 * (k - NDIRECT - 1), n);
    NotDataIf(l, t, f.owner, ind);
    OtherBlockSameBytes(f.blocks, t, ind, v);
    assert FirstUsed(l.size, n)[ind] by { assert ind in f.owner; }
    FillHoleSameBytes(f.blocks[ind := v], t, i, k, n);
    SameBytesTrans(f.blocks, t, f.blocks[ind := v], t, f.blocks[ind := v], Set(t, i, k, n));
  }

  /** Writing a data block of a file. */
  lemma PutData(l: Layout, f: Fs, n: nat, i: nat, off: nat, piece: seq<byte>)
    requires Building(l, f, n) && i < |f.inodes| && off < MAXBYTES && off % BSIZE + |piece| <= BSIZE
    requires Cell(Row(f, i), off / BSIZE) != 0
    ensures Cell(Row(f, i), off / BSIZE) < |f.blocks|
    ensures
      var p := Cell(Row(f, i), off / BSIZE);
      var f' := f.(blocks := f.blocks[p := Overlay(f.blocks[p], off % BSIZE, piece)]);
      Building(l, f', n) && T(f') == T(f) && Wrote(f, f', i, off, piece) && SameMeta(l, f.blocks, f'.blocks)
  {
    var bn := off / BSIZE;
    var t := T(f);
    var p := t[i][DataPos(bn)];
    assert p == Cell(Row(f, i), bn);
    assert p in f.owner && f.owner[p] == Slot(i, DataPos(bn));
    var v := Overlay(f.blocks[p], off % BSIZE, piece);
    MetaNotIndirect(l, f.blocks, f.inodes, f.owner, p);
    TableSame(f.blocks, f.inodes, p, v);
    assert FirstUsed(l.size, n)[p];
    DataBytes(f.blocks, t, f.owner, i, bn, v);
    PatchedWrote(f, f.(blocks := f.blocks[p := v]), i, off, piece);
  }

  /** What making block `bn` of inode `i` available does to the state. */
  ghost predicate Reached(l: Layout, f: Fs, n: nat, f': Fs, n': nat, i: nat, bn: nat) {
    && Building(l, f, n) && Building(l, f', n') && n <= n' <= n + 2 && bn < MAXFILE
    && OnlyAddrs(f.inodes, f'.inodes, i) && Extends(T(f), T(f'), i, bn)
    && SameBytes(f.blocks, T(f), f'.blocks, T(f')) && SameMeta(l, f.blocks, f'.blocks)
  }

  lemma ReachedNone(l: Layout, f: Fs, n: nat, i: nat, bn: nat)
    requires Building(l, f, n) && bn < MAXFILE && i < |f.inodes|
    ensures Reached(l, f, n, f, n, i, bn)
  {
  }

  lemma ReachedTook(l: Layout, f: Fs, f': Fs, n: nat, i: nat, k: nat, bn: nat)
    requires Took(l, f, f', n, i, k) && bn < MAXFILE && T(f)[i][k] == 0
    requires k == DataPos(bn) || (k == NDIRECT && bn >= NDIRECT)
    ensures Reached(l, f, n, f', n + 1, i, bn) && T(f')[i][k] == n
    ensures forall m :: 0 <= m < NPTR && m != k ==> T(f')[i][m] == T(f)[i][m]
  {
  }

  lemma ReachedTwice(l: Layout, f: Fs, g: Fs, h: Fs, n: nat, i: nat, bn: nat)
    requires Reached(l, f, n, g, n + 1, i, bn) && Reached(l, g, n + 1, h, n + 2, i, bn)
    ensures Reached(l, f, n, h, n + 2, i, bn)
  {
    hide Owned, ZeroFrom, ZeroBitmap;
    SameBytesTrans(f.blocks, T(f), g.blocks, T(g), h.blocks, T(h));
  }

  // ---------------------------------------------------------------- appending

  /** Blocks of a file of `size` bytes. */
  function BlocksOf(size: nat): nat {
    (size + BSIZE - 1) / BSIZE
  }

  /** Blocks that are taken when `r` bytes are appended to a file of `off` bytes whose indirect block is `ind`. */
  function Needs(ind: nat, off: nat, r: nat): int {
    BlocksOf(off + r) - BlocksOf(off) + if r > 0 && off + r > NDIRECT * BSIZE && ind == 0 then 1 else 0
  }

  /** Blocks that are taken to make file block `bn` available. */
  function Missing(row: seq<nat>, bn: nat): nat {
    (if Cell(row, bn) == 0 then 1 else 0) + (if bn >= NDIRECT && Ind(row) == 0 then 1 else 0)
  }

  lemma Crossing(off: nat, m: nat)
    requires 0 < m && off % BSIZE + m <= BSIZE
    ensures BlocksOf(off + m) == off / BSIZE + 1 && BlocksOf(off) == off / BSIZE + if off % BSIZE == 0 then 0 else 1
  {
  }

  /** The chunk that one turn of the loop of `iappend` copies: it lies in one block. */
  function Chunk(off: nat, r: nat): nat {
    var room := (off / BSIZE + 1) * BSIZE - off;
    if r < room then r else room
  }

  lemma NeedsStep(row: seq<nat>, off: nat, r: nat)
    requires 0 < r && off + r <= MAXBYTES && Exact(row, off)
    ensures 0 < Chunk(off, r) <= r && off % BSIZE + Chunk(off, r) <= BSIZE && off / BSIZE < MAXFILE
    ensures Missing(row, off / BSIZE) <= Needs(Ind(row), off, r)
  {
    NeedsAfter(row, if Ind(row) == 0 && off / BSIZE < NDIRECT then 0 else 1, off, r);
    var m := Chunk(off, r);
    BlocksGrow(off + m, r - m);
  }

  /** After the turn the indirect block is `ind`. */
  lemma NeedsAfter(row: seq<nat>, ind: nat, off: nat, r: nat)
    requires 0 < r && off + r <= MAXBYTES && Exact(row, off) && (ind == 0 <==> Ind(row) == 0 && off / BSIZE < NDIRECT)
    ensures
      var m := Chunk(off, r);
      m <= r && Missing(row, off / BSIZE) + Needs(ind, off + m, r - m) == Needs(Ind(row), off, r)
  {
    var bn, m := off / BSIZE, Chunk(off, r);
    Crossing(off, m);
    assert Cell(row, bn) != 0 <==> bn * BSIZE < off;
    hide BlocksOf, Cell, Ind, Exact;
    assert off + m + (r - m) == off + r;
  }

  lemma NeedsNone(ind: nat, off: nat)
    ensures Needs(ind, off, 0) == 0
  {
  }

  lemma BlocksGrow(off: nat, r: nat)
    ensures BlocksOf(off) <= BlocksOf(off + r)
  {
  }

  /** `data` has been appended to file `i`, which had `off` bytes; other files are as they were. */
  ghost predicate Appending(l: Layout, f: Fs, n: nat, f': Fs, n': nat, i: nat, off: nat, data: seq<byte>) {
    && Building(l, f, n) && Building(l, f', n') && OnlyAddrs(f.inodes, f'.inodes, i)
    && Wrote(f, f', i, off, data) && Exact(Row(f', i), off + |data|)
    && (forall j :: 0 <= j < |f.inodes| && j != i ==> T(f')[j] == T(f)[j]) && SameMeta(l, f.blocks, f'.blocks)
  }

  lemma AppendStart(l: Layout, f: Fs, n: nat, i: nat, off: nat)
    requires Building(l, f, n) && i < |f.inodes| && Exact(Row(f, i), off)
    ensures Appending(l, f, n, f, n, i, off, [])
  {
  }

  /** One turn of the loop of `iappend`: the block is made available (`g` to `h`), then the bytes are copied in. */
  lemma AppendStep(l: Layout, f: Fs, n: nat, g: Fs, n1: nat, h: Fs, n2: nat, k: Fs, i: nat, off: nat, data: seq<byte>,
      piece: seq<byte>)
    requires Appending(l, f, n, g, n1, i, off, data) && Reached(l, g, n1, h, n2, i, (off + |data|) / BSIZE)
    requires 0 < |piece| && off + |data| + |piece| <= MAXBYTES && (off + |data|) % BSIZE + |piece| <= BSIZE
    requires Cell(Row(h, i), (off + |data|) / BSIZE) != 0
    requires Building(l, k, n2) && T(k) == T(h) && k.inodes == h.inodes && Wrote(h, k, i, off + |data|, piece)
    requires SameMeta(l, h.blocks, k.blocks)
    ensures Appending(l, f, n, k, n2, i, off, data + piece)
  {
    hide Owned, ZeroFrom, ZeroBitmap, Table, Exact, Wrote, SameBytes, Extends, T;
    AppendWrote(f, g, h, k, i, off, data, piece);
    AppendExact(l, g, n1, h, n2, i, off + |data|, |piece|);
    AppendOthers(T(g), T(h), i, (off + |data|) / BSIZE);
  }

  lemma AppendWrote(f: Fs, g: Fs, h: Fs, k: Fs, i: nat, off: nat, data: seq<byte>, piece: seq<byte>)
    requires AllOk(f.inodes) && AllOk(g.inodes) && AllOk(h.inodes) && AllOk(k.inodes)
    requires |f.inodes| == |g.inodes| == |h.inodes| == |k.inodes|
    requires Wrote(f, g, i, off, data) && SameBytes(g.blocks, T(g), h.blocks, T(h))
    requires Wrote(h, k, i, off + |data|, piece)
    ensures Wrote(f, k, i, off, data + piece)
  {
    hide Wrote, SameBytes, T;
    WroteNothing(g, h, i, off + |data|);
    WroteAppend(g, h, k, i, off + |data|, [], piece);
    assert [] + piece == piece;
    WroteAppend(f, g, k, i, off, data, piece);
  }

  lemma AppendExact(l: Layout, g: Fs, n1: nat, h: Fs, n2: nat, i: nat, off: nat, m: nat)
    requires Reached(l, g, n1, h, n2, i, off / BSIZE) && i < |g.inodes| && Exact(Row(g, i), off)
    requires 0 < m && off + m <= MAXBYTES && off % BSIZE + m <= BSIZE && Cell(Row(h, i), off / BSIZE) != 0
    ensures Exact(Row(h, i), off + m)
  {
    hide Owned, ZeroFrom, ZeroBitmap, Table, Exact, SameBytes, Extends;
    ExtendsKeeps(T(g), T(h), i, off / BSIZE);
    ExactMore(Row(g, i), Row(h, i), off, m);
  }

  lemma AppendOthers(t: seq<seq<nat>>, t': seq<seq<nat>>, i: nat, bn: nat)
    requires Extends(t, t', i, bn) && i < |t|
    ensures |t'| == |t| && forall j :: 0 <= j < |t| && j != i ==> t'[j] == t[j]
  {
    ExtendsKeeps(t, t', i, bn);
  }

  lemma ExactMore(row: seq<nat>, row': seq<nat>, off: nat, m: nat)
    requires |row| == |row'| == NPTR && Exact(row, off) && 0 < m && off + m <= MAXBYTES && off % BSIZE + m <= BSIZE
    requires forall k :: 0 <= k < NPTR && k != DataPos(off / BSIZE) && k != NDIRECT ==> row'[k] == row[k]
    requires Cell(row', off / BSIZE) != 0
    ensures Exact(row', off + m)
  {
    forall bn | 0 <= bn < MAXFILE ensures Cell(row', bn) != 0 <==> bn * BSIZE < off + m {
      if bn != off / BSIZE {
        assert Cell(row', bn) == Cell(row, bn);
      }
    }
  }

  /** The entry of the indirect block for file block `bn`. */
  lemma BuildingEntry(l: Layout, f: Fs, n: nat, i: nat, bn: nat)
    requires Building(l, f, n) && i < |f.inodes| && NDIRECT <= bn < MAXFILE && f.inodes[i].addrs[NDIRECT] != 0
    ensures f.inodes[i].addrs[NDIRECT] < |f.blocks|
    ensures T(f)[i][DataPos(bn)] == Ptr(f.blocks, f.inodes[i], bn + 1) ==
              U32(f.blocks[f.inodes[i].addrs[NDIRECT]], 4 * (bn - NDIRECT))
  {
    IndirectOwned(l, f.blocks, f.inodes, f.owner, i);
  }

  lemma AppendingOk(l: Layout, f: Fs, n: nat, f': Fs, n': nat, i: nat, off: nat, data: seq<byte>)
    requires Appending(l, f, n, f', n', i, off, data)
    ensures Building(l, f', n') && i < |f'.inodes| && Exact(Row(f', i), off + |data|)
  {
  }

  lemma ReachedOk(l: Layout, f: Fs, n: nat, f': Fs, n': nat, i: nat, bn: nat)
    requires Reached(l, f, n, f', n', i, bn)
    ensures Building(l, f', n') && i < |f'.inodes| && n' <= n + 2
  {
  }

  lemma AddrsInRow(l: Layout, f: Fs, n: nat, i: nat)
    requires Building(l, f, n) && i < |f.inodes|
    ensures |Row(f, i)| == NPTR && |f.inodes[i].addrs| == NDIRECT + 1
    ensures forall k :: 0 <= k <= NDIRECT ==> Row(f, i)[k] == f.inodes[i].addrs[k]
  {
  }

  class Builder {
    const l: Layout
    var blocks: seq<Block>
    var inodes: seq<Inode>
    var freeblock: nat
    var freeinode: nat
    ghost var owner: map<nat, Slot>

    ghost function Snap(): Fs
      reads this
    {
      Fs(blocks, inodes, owner)
    }

    /** The block for file block `bn`, taken from the free ones if there is none. */
    method MapBlock(i: nat, bn: nat) returns (x: nat)
      requires Building(l, Snap(), freeblock) && i < |inodes| && bn < MAXFILE
      requires freeblock + Missing(Row(Snap(), i), bn) <= l.size
      modifies this`blocks, this`inodes, this`owner, this`freeblock
      ensures Reached(l, old(Snap()), old(freeblock), Snap(), freeblock, i, bn)
      ensures x == Cell(Row(Snap(), i), bn) != 0 && freeblock == old(freeblock) + Missing(Row(old(Snap()), i), bn)
      ensures Ind(Row(Snap(), i)) == 0 <==> Ind(Row(old(Snap()), i)) == 0 && bn < NDIRECT
    {
      hide Building, SameBytes, SameMeta, Extends, OnlyAddrs, Row;
      ghost var f, n := Snap(), freeblock;
      AddrsInRow(l, f, n, i);
      if bn < NDIRECT {
        x := MapAddr(i, bn, bn);
      } else {
        var ind := MapAddr(i, NDIRECT, bn);
        ghost var g, m := Snap(), freeblock;
        x := MapEntry(i, bn);
        if n < m && m < freeblock {
          ReachedTwice(l, f, g, Snap(), n, i, bn);
        }
      }
    }

    method MapAddr(i: nat, k: nat, bn: nat) returns (x: nat)
      requires Building(l, Snap(), freeblock) && i < |inodes| && bn < MAXFILE
      requires k < |inodes[i].addrs| && (inodes[i].addrs[k] == 0 ==> freeblock < l.size)
      requires k <= NDIRECT && (if k == NDIRECT then bn >= NDIRECT else k == bn)
      modifies this`inodes, this`owner, this`freeblock
      ensures Reached(l, old(Snap()), old(freeblock), Snap(), freeblock, i, bn) && freeblock <= old(freeblock) + 1
      ensures i < |inodes| && k < |inodes[i].addrs| && x == inodes[i].addrs[k] != 0
      ensures |Row(old(Snap()), i)| == NPTR && Row(Snap(), i) == Row(old(Snap()), i)[k := x]
      ensures freeblock == old(freeblock) + if old(inodes)[i].addrs[k] == 0 then 1 else 0
      ensures freeblock == old(freeblock) ==> unchanged(this)
    {
      hide Owned, SameBytes, SameMeta, ZeroFrom, ZeroBitmap;
      ghost var f := Snap();
      ReachedNone(l, f, freeblock, i, bn);
      if inodes[i].addrs[k] == 0 {
        TakeAddr(l, f, freeblock, i, k);
        inodes := inodes[i := inodes[i].(addrs := inodes[i].addrs[k := freeblock])];
        owner := owner[freeblock := Slot(i, k)];
        ReachedTook(l, f, Snap(), freeblock, i, k, bn);
        freeblock := freeblock + 1;
      }
      x := inodes[i].addrs[k];
    }

    method MapEntry(i: nat, bn: nat) returns (x: nat)
      requires Building(l, Snap(), freeblock) && i < |inodes| && NDIRECT <= bn < MAXFILE
      requires inodes[i].addrs[NDIRECT] != 0 && (Cell(Row(Snap(), i), bn) == 0 ==> freeblock < l.size)
      modifies this`blocks, this`owner, this`freeblock
      ensures Reached(l, old(Snap()), old(freeblock), Snap(), freeblock, i, bn) && freeblock <= old(freeblock) + 1
      ensures x != 0 && |Row(old(Snap()), i)| == NPTR && Row(Snap(), i) == Row(old(Snap()), i)[bn + 1 := x]
      ensures freeblock == old(freeblock) + if Cell(Row(old(Snap()), i), bn) == 0 then 1 else 0
      ensures freeblock == old(freeblock) ==> unchanged(this)
    {
      hide Owned, SameBytes, SameMeta, ZeroFrom, ZeroBitmap, Table, U32;
      ghost var f := Snap();
      ReachedNone(l, f, freeblock, i, bn);
      BuildingEntry(l, f, freeblock, i, bn);
      var ind := inodes[i].addrs[NDIRECT];
      x := U32(blocks[ind], 4 * (bn - NDIRECT));
      if x == 0 {
        x := freeblock;
        TakeEntry(l, f, freeblock, i, bn + 1);
        blocks := blocks[ind := PutU32(blocks[ind], 4 * (bn - NDIRECT), x)];
        owner := owner[x := Slot(i, bn + 1)];
        ReachedTook(l, f, Snap(), freeblock, i, bn + 1, bn);
        freeblock := freeblock + 1;
      }
    }

    /** The loop of `iappend`: appends `data` to file `i`, which has `off` bytes. */
    method AppendLoop(i: nat, off: nat, data: seq<byte>)
      requires Building(l, Snap(), freeblock) && i < |inodes| && Exact(Row(Snap(), i), off)
      requires off + |data| <= MAXBYTES && freeblock + Needs(Ind(Row(Snap(), i)), off, |data|) <= l.size
      modifies this`blocks, this`inodes, this`owner, this`freeblock
      ensures Appending(l, old(Snap()), old(freeblock), Snap(), freeblock, i, off, data)
      ensures freeblock == old(freeblock) + Needs(Ind(Row(old(Snap()), i)), off, |data|)
    {
      hide Building, Reached, Appending, Overlay, Wrote, Exact, Table, T, SameMeta, Needs, Missing, Cell, Ind, Chunk;
      ghost var f, n := Snap(), freeblock;
      AppendStart(l, f, n, i, off);
      var p := 0;
      assert data[..0] == [];
      while p < |data|
        invariant 0 <= p <= |data| && Appending(l, f, n, Snap(), freeblock, i, off, data[..p])
        invariant
          freeblock + Needs(Ind(Row(Snap(), i)), off + p, |data| - p) == n + Needs(Ind(Row(f, i)), off, |data|)
      {
        ghost var g, n1 := Snap(), freeblock;
        AppendingOk(l, f, n, g, n1, i, off, data[..p]);
        var fbn := (off + p) / BSIZE;
        NeedsStep(Row(g, i), off + p, |data| - p);
        var x := MapBlock(i, fbn);
        ghost var h := Snap();
        ReachedOk(l, g, n1, h, freeblock, i, fbn);
        var m := Chunk(off + p, |data| - p);
        NeedsAfter(Row(g, i), Ind(Row(h, i)), off + p, |data| - p);
        PutData(l, h, freeblock, i, off + p, data[p..p + m]);
        blocks := blocks[x := Overlay(blocks[x], (off + p) % BSIZE, data[p..p + m])];
        AppendStep(l, f, n, g, n1, h, freeblock, Snap(), i, off, data[..p], data[p..p + m]);
        assert data[..p] + data[p..p + m] == data[..p + m];
        p := p + m;
      }
      assert data[..p] == data;
      NeedsNone(Ind(Row(Snap(), i)), off + |data|);
    }

    /** Between operations: every file has exactly its blocks, every inode is on the disk, and the inodes from
        `freeinode` on are free. */
    ghost predicate Valid()
      reads this
    {
      Whole(l, Snap(), freeblock) && FreeFrom(inodes, freeinode)
    }

    constructor (l: Layout)
      requires l.Valid() && l.size >= l.datastart
      ensures this.l == l && Valid() && freeblock == l.datastart && freeinode == 1
    {
      this.l := l;
      blocks := seq(l.size, _ => Zeros(BSIZE));
      inodes := seq(l.ninodes, _ => FREE);
      freeblock, freeinode, owner := l.datastart, 1, map[];
      new;
      EmptyImage(l, Snap());
    }

    /** The next inode, with one link and no content. */
    method Ialloc(typ: nat) returns (inum: nat)
      requires Valid() && 0 < freeinode < l.ninodes && typ < 0x1_0000
      modifies this`blocks, this`inodes, this`freeinode
      ensures Valid() && inum == old(freeinode) && freeinode == inum + 1
      ensures inodes == old(inodes)[inum := FREE.(typ := typ, nlink := 1)]
    {
      hide Building, AllExact, Synced, Table;
      WholeSized(l, Snap(), freeblock);
      inum := freeinode;
      freeinode := freeinode + 1;
      ghost var f := Snap();
      inodes := inodes[inum := FREE.(typ := typ, nlink := 1)];
      MetaChange(l, f, Snap(), freeblock, inum);
      Winode(inum);
    }

    /** Writes inode `i` into its inode block. */
    method Winode(i: nat)
      requires Sized(l, blocks, inodes) && i < |inodes|
      modifies this`blocks
      ensures Snap() == Updated(l, old(Snap()), i)
    {
      IBlockInRange(l, i);
      blocks := blocks[l.IBlock(i) := PutInode(blocks[l.IBlock(i)], i % IPB, inodes[i])];
    }

    /** Appends `data` to file `i`. */
    method Iappend(i: nat, data: seq<byte>)
      requires Valid() && i < freeinode <= |inodes|
      requires inodes[i].size + |data| <= MAXBYTES && |inodes[i].addrs| > NDIRECT
      requires freeblock + Needs(inodes[i].addrs[NDIRECT], inodes[i].size, |data|) <= l.size
      modifies this`blocks, this`inodes, this`owner, this`freeblock
      ensures Valid() && |inodes| == old(|inodes|)
      ensures inodes[i].size == old(inodes[i].size) + |data|
      ensures forall j :: 0 <= j < |inodes| && j != i ==> inodes[j] == old(inodes[j])
      ensures Wrote(old(Snap()), Snap(), i, old(inodes[i].size), data)
      ensures freeblock == old(freeblock) + Needs(old(inodes)[i].addrs[NDIRECT], old(inodes[i].size), |data|)
    {
      hide Building, Exact, Wrote, Row, Table, Synced;
      ghost var f, n := Snap(), freeblock;
      var off := inodes[i].size;
      WholeOk(l, f, n, i);
      AddrsInRow(l, f, n, i);
      AppendLoop(i, off, data);
      ghost var g := Snap();
      AppendEnd(l, f, n, g, freeblock, i, off, data);
      inodes := inodes[i := inodes[i].(size := off + |data|)];
      Winode(i);
    }

    /** The end of `main`: the root directory's size is rounded up to the next block, then the bitmap is written.
        The result is an image on which the kernel's invariant holds, and its files have no holes exactly if the
        root directory did not already end on a block boundary. */
    method Finish(root: nat)
      requires Valid() && root < |inodes| && inodes[root].size + BSIZE <= MAXBYTES && freeblock < BPB
      modifies this`blocks, this`inodes
      ensures FsOk(l, Snap()) && Synced(l, blocks, inodes)
      ensures Stable(l, Snap()) <==> old(inodes[root].size) % BSIZE != 0
    {
      hide Building, Exact, Wrote, Row, Table;
      ghost var f := Snap();
      var off := (inodes[root].size / BSIZE + 1) * BSIZE;
      WholeOk(l, f, freeblock, root);
      Rounded(l, f, freeblock, root, off);
      inodes := inodes[root := inodes[root].(size := off)];
      Winode(root);
      ghost var g := Snap();
      var buf := FillBitmap(freeblock);
      BitmapWritten(l, g, freeblock, buf);
      blocks := blocks[l.bmapstart := buf];
      RoundedHoles(l, f, Snap(), root, off);
    }

    /** `balloc`: a bitmap block with the first `used` bits set. */
    method FillBitmap(used: nat) returns (buf: Block)
      requires used < BPB
      ensures forall c :: 0 <= c < BPB ==> BitIn(buf, c) == (c < used)
    {
      buf := Zeros(BSIZE);
      forall c | 0 <= c < BPB ensures !BitIn(buf, c) { ZeroBit(c % 8); }
      var i := 0;
      while i < used
        invariant 0 <= i <= used
        invariant forall c :: 0 <= c < BPB ==> BitIn(buf, c) == (c < i)
      {
        buf := PutBit(buf, i, true);
        i := i + 1;
      }
    }
  }

  const FREE := Inode(0, 0, 0, 0, 0, [0, 0, 0, 0, 0, 0, 0, 0, 0, 0, 0, 0, 0])

  ghost predicate FreeFrom(inodes: seq<Inode>, n: nat) {
    forall j :: n <= j < |inodes| ==> inodes[j] == FREE
  }

  ghost predicate Whole(l: Layout, f: Fs, n: nat) {
    Building(l, f, n) && AllExact(f) && Synced(l, f.blocks, f.inodes)
  }

  lemma WholeOk(l: Layout, f: Fs, n: nat, i: nat)
    requires Whole(l, f, n) && i < |f.inodes|
    ensures Building(l, f, n) && Sized(l, f.blocks, f.inodes) && Exact(Row(f, i), f.inodes[i].size)
    ensures f.inodes[i].size <= MAXBYTES
  {
  }

  lemma WholeSized(l: Layout, f: Fs, n: nat)
    requires Whole(l, f, n)
    ensures Sized(l, f.blocks, f.inodes)
  {
  }

  lemma {:induction false} ZeroBit(k: nat)
    ensures !BitOf(0, k)
  {
    if k > 0 { ZeroBit(k - 1); }
  }

  lemma FreeOnDisk(k: nat)
    requires k < IPB
    ensures GetInode(Zeros(BSIZE), k) == FREE
  {
    var z: Block := Zeros(BSIZE);
    assert forall i :: 0 <= i < 16 ==> U32(z, 64 * k + 4 * i) == 0;
    assert GetWords(z, 64 * k, 16) == InodeWords(FREE);
    InodeOfWords(FREE);
  }

  /** The zeroed image. */
  lemma EmptyImage(l: Layout, f: Fs)
    requires l.Valid() && f.blocks == seq(l.size, _ => Zeros(BSIZE)) && f.inodes == seq(l.ninodes, _ => FREE)
    requires f.owner == map[]
    ensures Whole(l, f, l.datastart) && FreeFrom(f.inodes, 1)
  {
    hide Table, Owned, Exact, DiskInode;
    EmptyTable(f.blocks, f.inodes);
    EmptyOwned(l, T(f));
    EmptySynced(l, f.blocks, f.inodes);
    forall i | 0 <= i < |f.inodes| ensures f.inodes[i].size <= MAXBYTES && Exact(Row(f, i), f.inodes[i].size) {
      EmptyExact(T(f)[i]);
    }
  }

  lemma EmptyExact(row: seq<nat>)
    requires |row| == NPTR && forall k :: 0 <= k < NPTR ==> row[k] == 0
    ensures Exact(row, 0)
  {
  }

  lemma EmptySynced(l: Layout, blocks: seq<Block>, inodes: seq<Inode>)
    requires Sized(l, blocks, inodes) && ZeroFrom(blocks, 0) && forall i :: 0 <= i < |inodes| ==> inodes[i] == FREE
    ensures Synced(l, blocks, inodes)
  {
    forall i | 0 <= i < l.ninodes ensures DiskInode(l, blocks, i) == inodes[i] {
      IBlockInRange(l, i);
      FreeOnDisk(i % IPB);
    }
  }

  lemma EmptyTable(blocks: seq<Block>, inodes: seq<Inode>)
    requires forall i :: 0 <= i < |inodes| ==> inodes[i] == FREE
    ensures AllOk(inodes)
    ensures forall i, k :: 0 <= i < |inodes| && 0 <= k < NPTR ==> Table(blocks, inodes)[i][k] == 0
  {
  }

  lemma EmptyOwned(l: Layout, t: seq<seq<nat>>)
    requires l.Valid() && Rows(t) && forall i, k :: 0 <= i < |t| && 0 <= k < NPTR ==> t[i][k] == 0
    ensures Owned(l, FirstUsed(l.size, l.datastart), t, map[])
  {
  }

  /** Storing the one inode that was not on the disk. */
  lemma StoreWhole(l: Layout, f: Fs, n: nat, i: nat)
    requires Building(l, f, n) && i < l.ninodes
    requires forall j ::
              0 <= j < l.ninodes && j != i ==> l.IBlock(j) < l.size && DiskInode(l, f.blocks, j) == f.inodes[j]
    ensures
      var g := Updated(l, f, i);
      Building(l, g, n) && Synced(l, g.blocks, g.inodes) && T(g) == T(f) && Wrote(f, g, i, 0, [])
  {
    StoredEffect(l, f, i);
    IBlockInRange(l, i);
  }

  /** An inode whose size and pointers stay: only its other fields change. */
  lemma MetaChange(l: Layout, f: Fs, f': Fs, n: nat, i: nat)
    requires Whole(l, f, n) && i < |f.inodes| && f'.blocks == f.blocks && f'.owner == f.owner
    requires |f'.inodes| == |f.inodes| && f'.inodes == f.inodes[i := f'.inodes[i]] && f'.inodes[i].Ok()
    requires f'.inodes[i].addrs == f.inodes[i].addrs && f'.inodes[i].size == f.inodes[i].size
    ensures Sized(l, f'.blocks, f'.inodes) && Whole(l, Updated(l, f', i), n)
  {
    hide Owned, Exact, Row, Table, ZeroFrom, ZeroBitmap, Wrote;
    SameAddrs(f, f');
    OthersSynced(l, f, f', i);
    StoreWhole(l, f', n, i);
    ExactSame(f, Updated(l, f', i));
  }

  lemma SameAddrs(f: Fs, f': Fs)
    requires AllOk(f.inodes) && AllOk(f'.inodes) && |f.inodes| == |f'.inodes| && f'.blocks == f.blocks
    requires forall j :: 0 <= j < |f.inodes| ==> f'.inodes[j].addrs == f.inodes[j].addrs
    ensures T(f') == T(f)
  {
    forall j | 0 <= j < |f.inodes| ensures Ptrs(f'.blocks, f'.inodes[j]) == Ptrs(f.blocks, f.inodes[j]) { }
  }

  lemma OthersSynced(l: Layout, f: Fs, f': Fs, i: nat)
    requires Sized(l, f.blocks, f.inodes) && Synced(l, f.blocks, f.inodes) && |f'.inodes| == |f.inodes|
    requires SameMeta(l, f.blocks, f'.blocks)
    requires forall j :: 0 <= j < |f.inodes| && j != i ==> f'.inodes[j] == f.inodes[j]
    ensures forall j ::
              0 <= j < l.ninodes && j != i ==> l.IBlock(j) < |f'.blocks| && DiskInode(l, f'.blocks, j) == f'.inodes[j]
  {
    forall j | 0 <= j < l.ninodes && j != i
        ensures l.IBlock(j) < |f'.blocks| && DiskInode(l, f'.blocks, j) == f'.inodes[j] {
      IBlockInRange(l, j);
      assert DiskInode(l, f.blocks, j) == f.inodes[j];
    }
  }

  lemma ExactSame(f: Fs, g: Fs)
    requires AllOk(f.inodes) && AllOk(g.inodes) && |f.inodes| == |g.inodes| && T(g) == T(f) && AllExact(f)
    requires forall j :: 0 <= j < |f.inodes| ==> g.inodes[j].size == f.inodes[j].size
    ensures AllExact(g)
  {
    forall j | 0 <= j < |g.inodes| ensures g.inodes[j].size <= MAXBYTES && Exact(Row(g, j), g.inodes[j].size) {
      assert Row(g, j) == Row(f, j);
      assert f.inodes[j].size <= MAXBYTES && Exact(Row(f, j), f.inodes[j].size);
    }
  }

  /** The end of `iappend`: the new size, then `winode`. */
  lemma AppendEnd(l: Layout, f: Fs, n: nat, g: Fs, n': nat, i: nat, off: nat, data: seq<byte>)
    requires Whole(l, f, n) && i < |f.inodes| && off == f.inodes[i].size && off + |data| <= MAXBYTES
    requires Appending(l, f, n, g, n', i, off, data)
    ensures |g.inodes| == |f.inodes| && (forall j :: 0 <= j < |f.inodes| && j != i ==> g.inodes[j] == f.inodes[j])
    ensures
      var h := g.(inodes := g.inodes[i := g.inodes[i].(size := off + |data|)]);
      && Sized(l, h.blocks, h.inodes) && Whole(l, Updated(l, h, i), n')
      && Wrote(f, Updated(l, h, i), i, off, data)
  {
    hide Owned, ZeroFrom, ZeroBitmap, Table, Wrote, Exact, SameBytes, Row, Synced, SameMeta, DiskInode, FirstUsed, T;
    var h := g.(inodes := g.inodes[i := g.inodes[i].(size := off + |data|)]);
    SameAddrs(g, h);
    OthersSynced(l, f, h, i);
    StoreWhole(l, h, n', i);
    var k := Updated(l, h, i);
    WroteSame(h, k, i);
    SameT(f, g, k, i, off, data);
    AppendedExact(f, g, k, i, off + |data|);
  }

  lemma AppendedExact(f: Fs, g: Fs, k: Fs, i: nat, size: nat)
    requires AllOk(f.inodes) && AllOk(g.inodes) && AllOk(k.inodes) && |f.inodes| == |g.inodes| == |k.inodes|
    requires i < |f.inodes|
    requires AllExact(f) && Exact(Row(g, i), size) && size <= MAXBYTES && k.inodes[i].size == size && T(k) == T(g)
    requires forall j :: 0 <= j < |f.inodes| && j != i ==> T(g)[j] == T(f)[j] && k.inodes[j].size == f.inodes[j].size
    ensures AllExact(k)
  {
    hide Exact, T;
    forall j | 0 <= j < |k.inodes| ensures k.inodes[j].size <= MAXBYTES && Exact(Row(k, j), k.inodes[j].size) {
      assert f.inodes[j].size <= MAXBYTES && Exact(Row(f, j), f.inodes[j].size);
    }
  }

  /** The root inode with its size rounded up. */
  lemma Rounded(l: Layout, f: Fs, n: nat, root: nat, off: nat)
    requires Whole(l, f, n) && root < |f.inodes| && off < WORD
    ensures
      var h := f.(inodes := f.inodes[root := f.inodes[root].(size := off)]);
      Sized(l, h.blocks, h.inodes) && Building(l, Updated(l, h, root), n)
      && Synced(l, Updated(l, h, root).blocks, h.inodes) && T(Updated(l, h, root)) == T(f)
  {
    var h := f.(inodes := f.inodes[root := f.inodes[root].(size := off)]);
    SameAddrs(f, h);
    OthersSynced(l, f, h, root);
    StoreWhole(l, h, n, root);
  }

  /** Writing the bitmap turns the order in which blocks were handed out into the kernel's invariant. */
  lemma BitmapWritten(l: Layout, g: Fs, n: nat, buf: Block)
    requires Building(l, g, n) && n < BPB && (forall c :: 0 <= c < BPB ==> BitIn(buf, c) == (c < n))
    requires Synced(l, g.blocks, g.inodes)
    ensures l.bmapstart < |g.blocks|
    ensures
      var k := g.(blocks := g.blocks[l.bmapstart := buf]);
      FsOk(l, k) && Synced(l, k.blocks, k.inodes) && T(k) == T(g)
  {
    IBlockInRange(l, 0);
    var k := g.(blocks := g.blocks[l.bmapstart := buf]);
    MetaNotIndirect(l, g.blocks, g.inodes, g.owner, l.bmapstart);
    TableSame(g.blocks, g.inodes, l.bmapstart, buf);
    forall b | 0 <= b < l.size ensures Bit(l, k.blocks, b) == (b < n) {
      BBlockInRange(l, b);
      if b >= BPB {
        ZeroBit(b % BPB % 8);
      }
    }
    assert Bits(l, k.blocks) == FirstUsed(l.size, n);
    forall j | 0 <= j < l.ninodes ensures DiskInode(l, k.blocks, j) == k.inodes[j] {
      IBlockInRange(l, j);
      assert DiskInode(l, g.blocks, j) == g.inodes[j];
    }
  }

  /** Rounding opens a hole exactly if the directory already ended on a block boundary. */
  lemma RoundedHoles(l: Layout, f: Fs, k: Fs, root: nat, off: nat)
    requires AllOk(f.inodes) && AllExact(f) && AllOk(k.inodes) && T(k) == T(f) && root < |f.inodes| == |k.inodes|
    requires off == (f.inodes[root].size / BSIZE + 1) * BSIZE <= MAXBYTES && k.inodes[root].size == off
    requires forall j :: 0 <= j < |f.inodes| && j != root ==> k.inodes[j] == f.inodes[j]
    ensures FilesOk(k) <==> f.inodes[root].size % BSIZE != 0
  {
    var size := f.inodes[root].size;
    assert Row(k, root) == Row(f, root) && Exact(Row(f, root), size);
    if size % BSIZE != 0 {
      forall j | 0 <= j < |k.inodes| ensures k.inodes[j].size <= MAXBYTES && HoleFree(Row(k, j), k.inodes[j].size) {
        assert Row(k, j) == Row(f, j) && Exact(Row(f, j), f.inodes[j].size);
      }
    } else {
      var bn := size / BSIZE;
      assert bn * BSIZE == size < off && Cell(Row(k, root), bn) == 0;
      assert !HoleFree(Row(k, root), off);
    }
  }

  // ---------------------------------------------------------------- a root directory that ends on a block boundary

  /** The layout that mkfs writes: 2000 blocks, 30 of them for the log, 200 inodes. */
  const LAYOUT := Layout(2000, 200, 32, 45, 46)

  /** A directory entry of sixteen bytes. */
  function DirentBytes(inum: nat, name: seq<byte>): (r: seq<byte>)
    requires inum < 0x1_0000 && |name| <= 14
    ensures |r| == 16
  {
    [inum % 0x100, inum / 0x100] + name + Zeros(14 - |name|)
  }

  lemma EntryNeeds(ind: nat, k: nat)
    requires k < 64
    ensures Needs(ind, 16 * k, 16) == if k == 0 then 1 else 0
  {
  }

  /** Inode 1 is the root directory with `k` entries. */
  ghost predicate RootHas(b: Builder, k: nat)
    reads b
  {
    && b.l == LAYOUT && b.Valid() && |b.inodes| == 200 && 2 <= b.freeinode <= 64
    && b.inodes[1].size == 16 * k && b.freeblock == 46 + if k == 0 then 0 else 1
  }

  method AddEntry(b: Builder, ghost k: nat, inum: nat, name: seq<byte>)
    requires RootHas(b, k) && k < 64 && inum < 0x1_0000 && |name| <= 14
    modifies b
    ensures RootHas(b, k + 1) && b.freeinode == old(b.freeinode)
  {
    hide Whole, FreeFrom, Wrote, Needs, DirentBytes;
    RootInRange(b.l, b.Snap(), b.freeblock);
    EntryNeeds(b.inodes[1].addrs[NDIRECT], k);
    b.Iappend(1, DirentBytes(inum, name));
  }

  /** mkfs with 62 empty files, named by one character each: the root directory has 64 entries and fills a block. */
  method SixtyTwoFiles() returns (b: Builder)
    ensures fresh(b) && b.l == LAYOUT && FsOk(b.l, b.Snap()) && Synced(b.l, b.blocks, b.inodes)
    ensures !Stable(b.l, b.Snap())
  {
    hide Whole, FreeFrom, Stable, FsOk, Synced;
    b := new Builder(LAYOUT);
    ImageSized(b.l, b.Snap(), b.freeblock);
    var root := b.Ialloc(1);
    AddEntry(b, 0, root, [46]);
    AddEntry(b, 1, root, [46, 46]);
    var k: nat := 2;
    while k < 64
      invariant 2 <= k <= 64 && fresh(b) && RootHas(b, k) && b.freeinode == k
    {
      var inum := b.Ialloc(2);
      var letter: byte := 48 + k;
      AddEntry(b, k, inum, [letter]);
      k := k + 1;
    }
    b.Finish(root);
  }

  lemma ImageSized(l: Layout, f: Fs, n: nat)
    requires Whole(l, f, n)
    ensures |f.inodes| == l.ninodes
  {
  }

  lemma RootInRange(l: Layout, f: Fs, n: nat)
    requires Whole(l, f, n) && |f.inodes| > 1
    ensures |f.inodes[1].addrs| == NDIRECT + 1
  {
    assert f.inodes[1].Ok();
  }
}
