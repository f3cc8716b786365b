/** Ownership of disk blocks and the flat bytes of a file, over the blocks and inodes of the file system. */
module FsState {
  import opened Words
  import opened FsLayout

  /** Pointers of an inode: 0..11 direct, 12 the indirect block, 13..268 the entries of the indirect block. */
  const NPTR := 269

  /** Position of the pointer to data block `bn` of a file. */
  function DataPos(bn: nat): (k: nat)
    ensures k != NDIRECT
    ensures bn < MAXFILE ==> k < NPTR
  {
    if bn < NDIRECT then bn else bn + 1
  }

  /** Pointer `k` of an inode: 0 if there is none. */
  function Ptr(blocks: seq<Block>, ino: Inode, k: nat): nat
    requires ino.Ok() && k < NPTR
  {
    if k <= NDIRECT then ino.addrs[k]
    else if 0 < ino.addrs[NDIRECT] < |blocks| then U32(blocks[ino.addrs[NDIRECT]], 4 * (k - NDIRECT - 1))
    else 0
  }

  function Ptrs(blocks: seq<Block>, ino: Inode): (r: seq<nat>)
    requires ino.Ok()
    ensures |r| == NPTR
    ensures forall k :: 0 <= k < NPTR ==> r[k] == Ptr(blocks, ino, k)
  {
    seq(NPTR, k requires 0 <= k < NPTR => Ptr(blocks, ino, k))
  }

  predicate AllOk(inodes: seq<Inode>) {
    forall i :: 0 <= i < |inodes| ==> inodes[i].Ok()
  }

  /** The pointers of every inode. */
  function Table(blocks: seq<Block>, inodes: seq<Inode>): (t: seq<seq<nat>>)
    requires AllOk(inodes)
    ensures |t| == |inodes|
    ensures forall i :: 0 <= i < |inodes| ==> t[i] == Ptrs(blocks, inodes[i])
  {
    seq(|inodes|, i requires 0 <= i < |inodes| => Ptrs(blocks, inodes[i]))
  }

  /** The free bitmap. */
  function Bits(l: Layout, blocks: seq<Block>): (r: seq<bool>)
    requires l.Valid() && |blocks| == l.size
    ensures |r| == l.size
    ensures forall b :: 0 <= b < l.size ==> r[b] == Bit(l, blocks, b)
  {
    seq(l.size, b requires 0 <= b < l.size => Bit(l, blocks, b))
  }

  // ---------------------------------------------------------------- ownership

  /** A pointer position: inode number and position in its pointers. */
  datatype Slot = Slot(i: nat, k: nat)

  ghost predicate InTable(t: seq<seq<nat>>, s: Slot) {
    s.i < |t| && s.k < |t[s.i]|
  }

  /** Every pointer that is not 0 points to a block that this slot, and no other, owns. */
  ghost predicate PointersOwned(t: seq<seq<nat>>, owner: map<nat, Slot>) {
    forall i, k :: 0 <= i < |t| && 0 <= k < |t[i]| && t[i][k] != 0 ==> t[i][k] in owner && owner[t[i][k]] == Slot(i, k)
  }

  /** Every owned block is a data block, and its owner does point to it. */
  ghost predicate OwnersPoint(l: Layout, t: seq<seq<nat>>, owner: map<nat, Slot>) {
    forall b :: b in owner ==> l.datastart <= b < l.size && InTable(t, owner[b]) && t[owner[b].i][owner[b].k] == b
  }

  /** A block is marked in use exactly if it is a meta block or has an owner: nothing leaks and nothing is shared. */
  ghost predicate BitsExact(l: Layout, bits: seq<bool>, owner: map<nat, Slot>) {
    |bits| == l.size && forall b :: 0 <= b < l.size ==> (bits[b] <==> b < l.datastart || b in owner)
  }

  ghost predicate Owned(l: Layout, bits: seq<bool>, t: seq<seq<nat>>, owner: map<nat, Slot>) {
    PointersOwned(t, owner) && OwnersPoint(l, t, owner) && BitsExact(l, bits, owner)
  }

  function Set(t: seq<seq<nat>>, i: nat, k: nat, b: nat): seq<seq<nat>>
    requires i < |t| && k < |t[i]|
  {
    var row: seq<nat> := t[i][k := b];
    t[i := row]
  }

  /** Giving a free block to an empty slot. */
  lemma Attach(l: Layout, bits: seq<bool>, t: seq<seq<nat>>, owner: map<nat, Slot>, i: nat, k: nat, b: nat)
    requires Owned(l, bits, t, owner) && l.Valid()
    requires b < l.size && !bits[b] && i < |t| && k < |t[i]| && t[i][k] == 0
    ensures Owned(l, bits[b := true], Set(t, i, k, b), owner[b := Slot(i, k)])
    ensures l.datastart <= b && b !in owner
  {
    assert b !in owner && l.datastart <= b;
    var t' := Set(t, i, k, b);
    var owner' := owner[b := Slot(i, k)];
    forall c | c in owner'
      ensures l.datastart <= c < l.size && InTable(t', owner'[c]) && t'[owner'[c].i][owner'[c].k] == c
    {
    }
  }

  /** Taking the block of a slot away and freeing it. */
  lemma Detach(l: Layout, bits: seq<bool>, t: seq<seq<nat>>, owner: map<nat, Slot>, i: nat, k: nat)
    requires Owned(l, bits, t, owner) && l.Valid()
    requires i < |t| && k < |t[i]| && t[i][k] != 0
    ensures
      var b := t[i][k];
      b < l.size && bits[b] && Owned(l, bits[b := false], Set(t, i, k, 0), owner - {b})
  {
    var b := t[i][k];
    assert b in owner && owner[b] == Slot(i, k);
    var t' := Set(t, i, k, 0);
    forall c | c in owner - {b}
      ensures l.datastart <= c < l.size && InTable(t', owner[c]) && t'[owner[c].i][owner[c].k] == c
    {
    }
  }

  // ---------------------------------------------------------------- the invariant of the file system

  ghost predicate Sized(l: Layout, blocks: seq<Block>, inodes: seq<Inode>) {
    l.Valid() && |blocks| == l.size && |inodes| == l.ninodes && AllOk(inodes)
  }

  /** Each block has at most one owner, owned blocks are marked in use, and no other data block is. */
  ghost predicate Consistent(l: Layout, blocks: seq<Block>, inodes: seq<Inode>, owner: map<nat, Slot>) {
    Sized(l, blocks, inodes) && Owned(l, Bits(l, blocks), Table(blocks, inodes), owner)
  }

  /** Every inode on the disk is the current one. */
  ghost predicate Synced(l: Layout, blocks: seq<Block>, inodes: seq<Inode>)
    requires Sized(l, blocks, inodes)
  {
    forall i :: 0 <= i < l.ninodes ==> DiskInode(l, blocks, i) == inodes[i]
  }
}
