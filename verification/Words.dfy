/** Bytes, disk blocks and the little-endian 32-bit words that the file system stores in them. */
module Words {

  type byte = x: nat | x < 256

  const BSIZE := 1024
  const WORD := 0x1_0000_0000

  function Zeros(n: nat): (s: seq<byte>)
    ensures |s| == n
    ensures forall i :: 0 <= i < n ==> s[i] == 0
  {
    seq(n, _ => 0)
  }

  type Block = b: seq<byte> | |b| == BSIZE witness Zeros(BSIZE)

  /** The `uint` stored at byte offset `off`. */
  function U32(s: seq<byte>, off: nat): (v: nat)
    requires off + 4 <= |s|
    ensures v < WORD
  {
    var b0: nat, b1: nat, b2: nat, b3: nat := s[off], s[off + 1], s[off + 2], s[off + 3];
    b0 + 0x100 * b1 + 0x1_0000 * b2 + 0x100_0000 * b3
  }

  lemma WordBytes(v: nat)
    requires v < WORD
    ensures v / 0x100_0000 < 0x100
    ensures v == v % 0x100 + 0x100 * (v / 0x100 % 0x100)
                 + 0x1_0000 * (v / 0x1_0000 % 0x100) + 0x100_0000 * (v / 0x100_0000)
  {
    Halves(v, 0x100);
    Halves(v, 0x1_0000);
    var w := v / 0x100;
    assert v == v % 0x100 + 0x100 * w;
    var x := w / 0x100;
    assert w == w % 0x100 + 0x100 * x;
    assert x == x % 0x100 + 0x100 * (x / 0x100);
  }

  /** Dividing in two steps. */
  lemma Halves(v: nat, d: nat)
    requires d == 0x100 || d == 0x1_0000
    ensures v / d / 0x100 == v / (d * 0x100)
  {
  }

  /** Stores the `uint` `v` at byte offset `off`. */
  function PutU32(s: seq<byte>, off: nat, v: nat): (r: seq<byte>)
    requires off + 4 <= |s| && v < WORD
    ensures |r| == |s|
    ensures forall i :: 0 <= i < |s| && !(off <= i < off + 4) ==> r[i] == s[i]
    ensures U32(r, off) == v
  {
    WordBytes(v);
    s[off := v % 0x100]
     [off + 1 := v / 0x100 % 0x100]
     [off + 2 := v / 0x1_0000 % 0x100]
     [off + 3 := v / 0x100_0000]
  }

  /** Storing a word leaves every word that does not overlap it alone. */
  lemma PutU32Other(s: seq<byte>, off: nat, v: nat, other: nat)
    requires off + 4 <= |s| && v < WORD
    requires other + 4 <= |s| && (other + 4 <= off || off + 4 <= other)
    ensures U32(PutU32(s, off, v), other) == U32(s, other)
  {
  }

  predicate AllWords(ws: seq<nat>) {
    forall i :: 0 <= i < |ws| ==> ws[i] < WORD
  }

  /** The first `k` of the words `ws` stored one after the other from byte offset `off`. */
  function PutWords(s: seq<byte>, off: nat, ws: seq<nat>, k: nat): (r: seq<byte>)
    requires AllWords(ws) && k <= |ws| && off + 4 * k <= |s|
    ensures |r| == |s|
    ensures forall i :: 0 <= i < |s| && !(off <= i < off + 4 * k) ==> r[i] == s[i]
    ensures forall i :: 0 <= i < k ==> U32(r, off + 4 * i) == ws[i]
  {
    if k == 0 then s
    else PutU32(PutWords(s, off, ws, k - 1), off + 4 * (k - 1), ws[k - 1])
  }

  /** The `n` words from byte offset `off` on. */
  function GetWords(s: seq<byte>, off: nat, n: nat): (ws: seq<nat>)
    requires off + 4 * n <= |s|
    ensures |ws| == n && AllWords(ws)
    ensures forall i :: 0 <= i < n ==> ws[i] == U32(s, off + 4 * i)
  {
    seq(n, i requires 0 <= i < n => U32(s, off + 4 * i))
  }
}
