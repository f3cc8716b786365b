/** User memory as the bytes of an address space. */
module VmCopy {
  import opened Words
  import opened Sv39
  import opened VmState

  predicate W(e: nat) {
    e / 4 % 2 == 1
  }

  ghost predicate Readable(m: Memory, root: nat, va: nat) {
    va < MAXVA && V(Lookup(m, root, va / PGSIZE)) && U(Lookup(m, root, va / PGSIZE))
  }

  ghost predicate Writable(m: Memory, root: nat, va: nat) {
    Readable(m, root, va) && W(Lookup(m, root, va / PGSIZE))
  }

  /** The byte a user process finds at `va`; 0 where it may not look. */
  ghost function UserByte(m: Memory, root: nat, va: nat): byte {
    var q := Pa(Lookup(m, root, va / PGSIZE));
    if Readable(m, root, va) && q in m && m[q].Data? && va % PGSIZE < |m[q].bytes| then m[q].bytes[va % PGSIZE] else 0
  }

  lemma UserLeaf(m: Memory, o: Uses, r: nat, v: nat)
    requires Trees(m, o) && r in o && o[r].Root? && v < MAXVPN && V(Lookup(m, r, v)) && U(Lookup(m, r, v))
    ensures
      var q := Pa(Lookup(m, r, v));
      q in o && q in m && o[q] == Leaf(r, v) && m[q].Data? && |m[q].bytes| == PGSIZE
  {
    WalkPath(m, o, r, v);
    VpnParts(v);
    var p := LowPage(m, r, v);
    assert GoodLeaf(o, o[p], I0(v), Entry(m, p, I0(v)));
  }

  function Splice(s: seq<byte>, off: nat, chunk: seq<byte>): (t: seq<byte>)
    requires off + |chunk| <= |s|
    ensures |t| == |s|
    ensures forall i :: 0 <= i < |s| ==> t[i] == if off <= i < off + |chunk| then chunk[i - off] else s[i]
  {
    s[..off] + chunk + s[off + |chunk|..]
  }

  /** The bytes from `va` on, in the address space `root`, are `src`; no other byte of any address space has changed. */
  ghost predicate Put(m: Memory, m': Memory, o: Uses, root: nat, va: nat, src: seq<byte>) {
    && SameMaps(m, m', o) && m'.Keys == m.Keys
    && (forall p :: p in o && p in m && !o[p].Leaf? ==> m'[p] == m[p])
    && (forall r, x :: r in o && o[r].Root? && 0 <= x < MAXVA ==>
         UserByte(m', r, x) == if r == root && va <= x < va + |src| then src[x - va] else UserByte(m, r, x))
  }

  /** One page of `copyout`. */
  lemma PutPage(m: Memory, o: Uses, root: nat, va: nat, chunk: seq<byte>)
    requires Trees(m, o) && root in o && o[root].Root? && Readable(m, root, va) && va % PGSIZE + |chunk| <= PGSIZE
    ensures
      var q := Pa(Lookup(m, root, va / PGSIZE));
      && q in m && q in o && m[q].Data? && |m[q].bytes| == PGSIZE && o[q].Leaf?
      && var m' := m[q := Data(Splice(m[q].bytes, va % PGSIZE, chunk))];
         Trees(m', o) && Put(m, m', o, root, va, chunk)
  {
    hide Trees, Lookup, V, U;
    UserLeaf(m, o, root, va / PGSIZE);
    var q := Pa(Lookup(m, root, va / PGSIZE));
    var bytes := Splice(m[q].bytes, va % PGSIZE, chunk);
    LeafWrite(m, o, q, bytes);
    var m' := m[q := Data(bytes)];
    forall r, x | r in o && o[r].Root? && 0 <= x < MAXVA
      ensures UserByte(m', r, x) == if r == root && va <= x < va + |chunk| then chunk[x - va] else UserByte(m, r, x)
    {
      assert Lookup(m', r, x / PGSIZE) == Lookup(m, r, x / PGSIZE);
      if Readable(m, r, x) {
        UserLeaf(m, o, r, x / PGSIZE);
        SamePage(va, x, |chunk|);
      } else if r == root {
        NotRead(m, root, va, x, |chunk|);
      }
    }
  }

  lemma SamePage(va: nat, x: nat, n: nat)
    requires va % PGSIZE + n <= PGSIZE
    ensures va <= x < va + n ==> x / PGSIZE == va / PGSIZE && x % PGSIZE == va % PGSIZE + (x - va)
    ensures x / PGSIZE == va / PGSIZE ==>
              (va % PGSIZE <= x % PGSIZE < va % PGSIZE + n <==> va <= x < va + n) && x % PGSIZE - va % PGSIZE == x - va
  {
  }

  /** All bytes of a page are accessible or none is. */
  lemma NotRead(m: Memory, root: nat, va: nat, x: nat, n: nat)
    requires Readable(m, root, va) && x < MAXVA && !Readable(m, root, x) && va % PGSIZE + n <= PGSIZE
    ensures !(va <= x < va + n)
  {
    SamePage(va, x, n);
  }

  lemma PutNone(m: Memory, o: Uses, root: nat, va: nat)
    ensures Put(m, m, o, root, va, [])
  {
  }

  lemma PutNext(m: Memory, m1: Memory, m2: Memory, o: Uses, root: nat, va: nat, src: seq<byte>, chunk: seq<byte>)
    requires Put(m, m1, o, root, va, src) && Put(m1, m2, o, root, va + |src|, chunk)
    ensures Put(m, m2, o, root, va, src + chunk)
  {
    hide UserByte, Lookup;
  }

  lemma PutAccess(m: Memory, m1: Memory, o: Uses, root: nat, va: nat, src: seq<byte>, x: nat)
    requires Put(m, m1, o, root, va, src) && root in o && o[root].Root?
    ensures Readable(m1, root, x) == Readable(m, root, x) && Writable(m1, root, x) == Writable(m, root, x)
    ensures x < MAXVA ==> Lookup(m1, root, x / PGSIZE) == Lookup(m, root, x / PGSIZE)
  {
    hide Lookup, UserByte;
  }

  /** The first byte of a range decides for the part of the range that is on its page. */
  lemma PageAccess(m: Memory, root: nat, va: nat, n: nat)
    requires va % PGSIZE + n <= PGSIZE && va < MAXVA
    ensures forall x ::
              va <= x < va + n ==>
              Readable(m, root, x) == Readable(m, root, va) && Writable(m, root, x) == Writable(m, root, va)
  {
    hide Lookup, V, U, W;
    forall x | va <= x < va + n ensures x < MAXVA && x / PGSIZE == va / PGSIZE {
      SamePage(va, x, n);
    }
  }

  /** Reading back what was written. */
  lemma PutBack(m: Memory, m': Memory, o: Uses, root: nat, va: nat, src: seq<byte>, got: seq<byte>)
    requires root in o && o[root].Root? && Put(m, m', o, root, va, src) && |got| == |src|
    requires (|src| > 0 ==> va + |src| <= MAXVA) && forall k :: 0 <= k < |src| ==> got[k] == UserByte(m', root, va + k)
    ensures got == src
  {
    hide UserByte, Lookup;
  }

  lemma PageOf(va: nat)
    ensures va / PGSIZE * PGSIZE / PGSIZE == va / PGSIZE && va - va / PGSIZE * PGSIZE == va % PGSIZE
    ensures va / PGSIZE * PGSIZE < MAXVA ==> va < MAXVA && va / PGSIZE < MAXVPN
  {
  }

  lemma NotMapped(m: Memory, root: nat, v: nat)
    requires LowPage(m, root, v) == 0
    ensures !V(Lookup(m, root, v))
  {
  }

  lemma PutList(m: Memory, m': Memory, o: Uses, q: nat, head: nat, n: nat)
    requires FreeList(m, o, head, n) && q in o && o[q].Leaf? && q in m' && m' == m[q := m'[q]]
    ensures FreeList(m', o, head, n)
  {
    ListSame(m, o, m', o, head, n);
  }

  lemma PartBytes(m: Memory, root: nat, va: nat, n: nat, part: seq<byte>)
    requires Readable(m, root, va) && va % PGSIZE + n <= PGSIZE
    requires var q := Pa(Lookup(m, root, va / PGSIZE));
              q in m && m[q].Data? && |m[q].bytes| == PGSIZE && part == m[q].bytes[va % PGSIZE..va % PGSIZE + n]
    ensures forall k :: 0 <= k < n ==> part[k] == UserByte(m, root, va + k)
  {
    hide Lookup, Pa, V, U;
    forall k | 0 <= k < n ensures part[k] == UserByte(m, root, va + k) {
      SamePage(va, va + k, n);
      PageAccess(m, root, va, n);
      var x := va + k;
      assert Readable(m, root, x);
    }
  }
}
