/** Where the file system keeps its bitmap, inodes and block pointers, bit by bit and byte by byte. */
module FsLayout {
  import opened Words

  const NDIRECT := 12
  const NINDIRECT := 256
  const MAXFILE := 268
  const IPB := 16
  const BPB := 8192

  /** Disk layout: inode blocks from `inodestart`, bitmap blocks from `bmapstart`, data blocks from `datastart`. */
  datatype Layout = Layout(size: nat, ninodes: nat, inodestart: nat, bmapstart: nat, datastart: nat) {
    predicate Valid() {
      && 0 < ninodes && 0 < size < WORD && 0 < inodestart
      && inodestart + (ninodes - 1) / IPB < bmapstart
      && bmapstart + (size - 1) / BPB < datastart
      && 0 < datastart <= size
    }

    /** The inode block of inode `i`. */
    function IBlock(i: nat): nat {
      i / IPB + inodestart
    }

    /** The bitmap block that holds the bit of block `b`. */
    function BBlock(b: nat): nat {
      b / BPB + bmapstart
    }
  }

  // ---------------------------------------------------------------- bits of a byte

  /** Bit `k` of `x`: whether `x & (1 << k)` is not zero. */
  predicate BitOf(x: nat, k: nat) {
    if k == 0 then x % 2 == 1 else BitOf(x / 2, k - 1)
  }

  /** `x` with bit `k` set to `on`: `x | (1 << k)` or `x & ~(1 << k)`. */
  function WithBit(x: nat, k: nat, on: bool): (y: nat) {
    if k == 0 then x / 2 * 2 + (if on then 1 else 0) else WithBit(x / 2, k - 1, on) * 2 + x % 2
  }

  lemma {:induction false} WithBitIs(x: nat, k: nat, on: bool, j: nat)
    ensures BitOf(WithBit(x, k, on), j) == if j == k then on else BitOf(x, j)
  {
    var y := WithBit(x, k, on);
    if k == 0 {
      assert y / 2 == x / 2 && y % 2 == if on then 1 else 0;
    } else {
      var z := WithBit(x / 2, k - 1, on);
      assert y / 2 == z && y % 2 == x % 2;
      if j > 0 {
        WithBitIs(x / 2, k - 1, on, j - 1);
      }
    }
  }

  function Pow2(n: nat): nat {
    if n == 0 then 1 else 2 * Pow2(n - 1)
  }

  lemma {:induction false} WithBitBound(x: nat, k: nat, on: bool, n: nat)
    requires x < Pow2(n) && k < n
    ensures WithBit(x, k, on) < Pow2(n)
  {
    if k > 0 {
      assert x / 2 < Pow2(n - 1);
      WithBitBound(x / 2, k - 1, on, n - 1);
    }
  }

  function ByteWithBit(x: byte, k: nat, on: bool): (y: byte)
    requires k < 8
    ensures forall j :: 0 <= j < 8 ==> BitOf(y, j) == if j == k then on else BitOf(x, j)
  {
    assert Pow2(8) == 256 by { assert Pow2(2) == 4 && Pow2(4) == 16 && Pow2(6) == 64; }
    WithBitBound(x, k, on, 8);
    assert forall j :: 0 <= j < 8 ==> BitOf(WithBit(x, k, on), j) == if j == k then on else BitOf(x, j) by {
      forall j | 0 <= j < 8 ensures BitOf(WithBit(x, k, on), j) == if j == k then on else BitOf(x, j) {
        WithBitIs(x, k, on, j);
      }
    }
    WithBit(x, k, on)
  }

  // ---------------------------------------------------------------- the bitmap

  /** The bit of block `b` in the bitmap block `bits`. */
  predicate BitIn(bits: Block, b: nat) {
    BitOf(bits[b % BPB / 8], b % BPB % 8)
  }

  function PutBit(bits: Block, b: nat, on: bool): (r: Block)
    ensures forall c :: 0 <= c && c / BPB == b / BPB ==> BitIn(r, c) == if c == b then on else BitIn(bits, c)
  {
    var bi := b % BPB;
    var r: Block := bits[bi / 8 := ByteWithBit(bits[bi / 8], bi % 8, on)];
    assert forall c :: 0 <= c && c / BPB == b / BPB ==> BitIn(r, c) == if c == b then on else BitIn(bits, c) by {
      forall c | 0 <= c && c / BPB == b / BPB
        ensures BitIn(r, c) == if c == b then on else BitIn(bits, c)
      {
        assert c % BPB == b % BPB <==> c == b;
      }
    }
    r
  }

  predicate Bit(l: Layout, blocks: seq<Block>, b: nat)
    requires l.BBlock(b) < |blocks|
  {
    BitIn(blocks[l.BBlock(b)], b)
  }

  // ---------------------------------------------------------------- inodes

  /** A `struct dinode`; the four leading `short`s are kept as unsigned 16-bit values. */
  datatype Inode = Inode(typ: nat, major: nat, minor: nat, nlink: nat, size: nat, addrs: seq<nat>) {
    predicate Ok() {
      && typ < 0x1_0000 && major < 0x1_0000 && minor < 0x1_0000 && nlink < 0x1_0000 && size < WORD
      && |addrs| == NDIRECT + 1 && AllWords(addrs)
    }
  }

  /** The sixteen words of an inode in the order in which `iupdate` stores them. */
  function InodeWords(ino: Inode): (ws: seq<nat>)
    requires ino.Ok()
    ensures |ws| == 16 && AllWords(ws)
  {
    [ino.typ + 0x1_0000 * ino.major, ino.minor + 0x1_0000 * ino.nlink, ino.size] + ino.addrs
  }

  function InodeOf(ws: seq<nat>): (ino: Inode)
    requires |ws| == 16 && AllWords(ws)
    ensures ino.Ok() && InodeWords(ino) == ws
  {
    Inode(ws[0] % 0x1_0000, ws[0] / 0x1_0000, ws[1] % 0x1_0000, ws[1] / 0x1_0000, ws[2], ws[3..])
  }

  lemma InodeOfWords(ino: Inode)
    requires ino.Ok()
    ensures InodeOf(InodeWords(ino)) == ino
  {
    assert InodeWords(ino)[3..] == ino.addrs;
  }

  /** The inode in slot `k` of an inode block. */
  function GetInode(b: Block, k: nat): (ino: Inode)
    requires k < IPB
    ensures ino.Ok()
  {
    InodeOf(GetWords(b, 64 * k, 16))
  }

  function PutInode(b: Block, k: nat, ino: Inode): (r: Block)
    requires k < IPB && ino.Ok()
  {
    PutWords(b, 64 * k, InodeWords(ino), 16)
  }

  /** Reading an inode block back after one inode was stored: that inode is new, its neighbours are not. */
  lemma PutInodeIs(b: Block, k: nat, ino: Inode, j: nat)
    requires k < IPB && ino.Ok() && j < IPB
    ensures GetInode(PutInode(b, k, ino), j) == if j == k then ino else GetInode(b, j)
  {
    var r := PutInode(b, k, ino);
    if j == k {
      assert GetWords(r, 64 * k, 16) == InodeWords(ino);
      InodeOfWords(ino);
    } else {
      assert forall i :: 64 * j <= i < 64 * j + 64 ==> r[i] == b[i];
      assert GetWords(r, 64 * j, 16) == GetWords(b, 64 * j, 16);
    }
  }

  /** Inode `i` as it is on the disk. */
  function DiskInode(l: Layout, blocks: seq<Block>, i: nat): Inode
    requires l.IBlock(i) < |blocks|
  {
    GetInode(blocks[l.IBlock(i)], i % IPB)
  }
}
