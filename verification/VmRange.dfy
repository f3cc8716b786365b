/** What mapping and unmapping a range of virtual pages does to the address spaces and to the uses of pages. */
module VmRange {
  import opened Sv39
  import opened VmState

  // ---------------------------------------------------------------- one page

  ghost function Owning(o: Uses, q: nat, use: Use): Uses {
    if q in o then o[q := use] else o
  }

  /** An unmapped virtual page is not backed by user memory. */
  lemma NoLeaf(m: Memory, o: Uses, root: nat, vpn: nat)
    requires Trees(m, o) && Lookup(m, root, vpn) == 0
    ensures forall x :: x in o ==> o[x] != Leaf(root, vpn)
  {
    hide Lookup;
    forall x | x in o && o[x].Leaf? ensures UpLeaf(m, o, x) {
    }
  }

  /** Two pages of user memory are mapped at two places. */
  lemma OneLeaf(m: Memory, o: Uses, x: nat, y: nat)
    requires Trees(m, o) && x in o && y in o && o[x].Leaf? && o[y] == o[x]
    ensures x == y && Pa(Lookup(m, o[x].root, o[x].vpn)) == x && V(Lookup(m, o[x].root, o[x].vpn))
    ensures o[x].root in o && o[o[x].root].Root? && o[x].vpn < MAXVPN
  {
    hide Lookup, Pa;
    assert UpLeaf(m, o, x) && UpLeaf(m, o, y);
  }

  /** Mapping virtual page `vpn`: entry `I0(vpn)` of its table page `p` becomes `e`. With `q != 0` the page behind it
      is a kernel page `q` that turns into user memory. */
  lemma MapPage(m: Memory, o: Uses, p: nat, vpn: nat, e: nat, q: nat)
    requires Trees(m, o) && p in o && o[p].Low? && o[p].i2 == I2(vpn) && o[p].i1 == I1(vpn) && vpn < MAXVPN
    requires Lookup(m, o[p].root, vpn) == 0 && V(e) && IsLeaf(e) && (U(e) ==> q != 0)
    requires q != 0 ==> q == Pa(e) && q in o && o[q].Kernel? && m[q].Data? && |m[q].bytes| == PGSIZE
    ensures IsTable(m, p) && I0(vpn) < 512
    ensures Trees(SetEntry(m, p, I0(vpn), e), Owning(o, q, Leaf(o[p].root, vpn)))
    ensures MapSet(m, SetEntry(m, p, I0(vpn), e), o, o[p].root, vpn, e)
  {
    hide Lookup, DownRoot, DownMid, DownLow, Up, V, IsLeaf, U;
    VpnParts(vpn);
    NoLeaf(m, o, o[p].root, vpn);
    var o' := Owning(o, q, Leaf(o[p].root, vpn));
    assert LowChange(m, o, o', p, I0(vpn), e, q);
    SetLowTrees(m, o, o', p, I0(vpn), e, q);
  }

  /** Unmapping it: user memory at `vpn`, if there is any, is the kernel's again. */
  lemma UnmapPage(m: Memory, o: Uses, p: nat, vpn: nat, q: nat)
    requires Trees(m, o) && p in o && o[p].Low? && o[p].i2 == I2(vpn) && o[p].i1 == I1(vpn) && vpn < MAXVPN
    requires if q in o then o[q] == Leaf(o[p].root, vpn) else forall x :: x in o ==> o[x] != Leaf(o[p].root, vpn)
    ensures IsTable(m, p) && I0(vpn) < 512
    ensures Trees(SetEntry(m, p, I0(vpn), 0), Owning(o, q, Kernel))
    ensures MapSet(m, SetEntry(m, p, I0(vpn), 0), o, o[p].root, vpn, 0)
  {
    hide Lookup, DownRoot, DownMid, DownLow, Up, IsLeaf, U;
    VpnParts(vpn);
    var o' := Owning(o, q, Kernel);
    forall x | x in o && o[x] == Leaf(o[p].root, vpn) ensures x == q {
      OneLeaf(m, o, x, q);
    }
    assert LowChange(m, o, o', p, I0(vpn), 0, q);
    SetLowTrees(m, o, o', p, I0(vpn), 0, q);
  }

  // ---------------------------------------------------------------- mapping a range

  /** Virtual pages `vpn`, `vpn + 1`, ... of `root`, `n` of them, have got the physical pages from `pa` on. */
  ghost predicate MapsRange(m: Memory, m': Memory, o: Uses, root: nat, vpn: nat, n: nat, pa: nat, flags: nat)
    requires flags < 1024
  {
    forall r, v :: r in o && o[r].Root? && 0 <= v < MAXVPN ==>
      Lookup(m', r, v) == if r == root && vpn <= v < vpn + n then Pte(pa + (v - vpn) * PGSIZE, flags)
          else Lookup(m, r, v)
  }

  /** The use of page `p` then, if it was `u`. */
  ghost function NewUse(u: Use, p: nat, root: nat, vpn: nat, n: nat, pa: nat, own: bool): (r: Use)
    ensures r == u || (r.Leaf? && own && u.Kernel?)
  {
    if own && u.Kernel? && pa <= p < pa + n * PGSIZE then Leaf(root, vpn + (p - pa) / PGSIZE) else u
  }

  lemma NewUseNext(u: Use, p: nat, root: nat, vpn: nat, n: nat, pa: nat, own: bool)
    requires p % PGSIZE == 0 && pa % PGSIZE == 0
    ensures NewUse(u, p, root, vpn, n + 1, pa, own) ==
            if own && u.Kernel? && p == pa + n * PGSIZE then Leaf(root, vpn + n)
                else NewUse(u, p, root, vpn, n, pa, own)
  {
  }

  /** With `own` these pages have become user memory. Free pages may have become table pages, and nothing else has
      changed. */
  ghost predicate UsesRange(m: Memory, o: Uses, m': Memory, o': Uses, root: nat, vpn: nat, n: nat, pa: nat, own: bool) {
    && m.Keys == o.Keys && m'.Keys == o.Keys && o'.Keys == o.Keys
    && (forall p :: p in o && !o[p].Listed? ==>
         && o'[p] == NewUse(o[p], p, root, vpn, n, pa, own)
         && (!IsTree(o[p]) ==> m'[p] == m[p]))
    && (forall p :: p in o && o[p].Listed? ==> o'[p].Listed? || o'[p].Mid? || o'[p].Low?)
  }

  ghost predicate Mapped(m: Memory, o: Uses, m': Memory, o': Uses, root: nat, vpn: nat, n: nat, pa: nat, flags: nat,
      own: bool)
    requires flags < 1024
  {
    MapsRange(m, m', o, root, vpn, n, pa, flags) && UsesRange(m, o, m', o', root, vpn, n, pa, own)
  }

  lemma MappedNone(m: Memory, o: Uses, root: nat, vpn: nat, pa: nat, flags: nat, own: bool)
    requires Trees(m, o) && flags < 1024
    ensures Mapped(m, o, m, o, root, vpn, 0, pa, flags, own)
  {
    hide Lookup, DownRoot, DownMid, DownLow, Up;
  }

  lemma MappedGrew(m: Memory, o: Uses, m1: Memory, o1: Uses, m2: Memory, o2: Uses, root: nat, vpn: nat, n: nat,
      pa: nat, flags: nat, own: bool)
    requires flags < 1024 && Mapped(m, o, m1, o1, root, vpn, n, pa, flags, own) && TablesGrew(m1, o1, m2, o2)
    ensures Mapped(m, o, m2, o2, root, vpn, n, pa, flags, own)
  {
    hide Lookup, Pte;
    forall r, v | r in o && o[r].Root? && 0 <= v < MAXVPN
      ensures Lookup(m2, r, v) == if r == root && vpn <= v < vpn + n then Pte(pa + (v - vpn) * PGSIZE, flags)
                else Lookup(m, r, v)
    {
      assert o1[r].Root?;
    }
  }

  /** Only page `p`, a level-0 table page, has been written, and page `q` has got a new use. */
  ghost predicate Wrote(m: Memory, o: Uses, m': Memory, o': Uses, p: nat, q: nat, use: Use) {
    && m.Keys == o.Keys && p in o && p in m' && o[p].Low? && m' == m[p := m'[p]] && o' == Owning(o, q, use)
  }

  lemma MappedNext(m: Memory, o: Uses, m1: Memory, o1: Uses, m2: Memory, o2: Uses, p: nat, root: nat, vpn: nat, n: nat,
      pa: nat, flags: nat, own: bool)
    requires flags < 1024 && Mapped(m, o, m1, o1, root, vpn, n, pa, flags, own) && root in o && o[root].Root?
    requires MapSet(m1, m2, o1, root, vpn + n, Pte(pa + n * PGSIZE, flags))
    requires Wrote(m1, o1, m2, o2, p, if own then pa + n * PGSIZE else 0, Leaf(root, vpn + n))
    requires pa % PGSIZE == 0 && 0 !in o && (forall x :: x in o ==> x % PGSIZE == 0)
    requires own ==> pa + n * PGSIZE in o && o[pa + n * PGSIZE].Kernel?
    ensures Mapped(m, o, m2, o2, root, vpn, n + 1, pa, flags, own)
  {
    MapsNext(m, m1, m2, o, o1, root, vpn, n, pa, flags);
    UsesNext(m, o, m1, o1, m2, o2, p, root, vpn, n, pa, own);
  }

  lemma MapsNext(m: Memory, m1: Memory, m2: Memory, o: Uses, o1: Uses, root: nat, vpn: nat, n: nat, pa: nat, flags: nat)
    requires flags < 1024 && MapsRange(m, m1, o, root, vpn, n, pa, flags)
    requires MapSet(m1, m2, o1, root, vpn + n, Pte(pa + n * PGSIZE, flags))
    requires forall r :: r in o && o[r].Root? ==> r in o1 && o1[r].Root?
    ensures MapsRange(m, m2, o, root, vpn, n + 1, pa, flags)
  {
    hide Lookup, Pte;
  }

  lemma UsesNext(m: Memory, o: Uses, m1: Memory, o1: Uses, m2: Memory, o2: Uses, p: nat, root: nat, vpn: nat, n: nat,
      pa: nat, own: bool)
    requires UsesRange(m, o, m1, o1, root, vpn, n, pa, own)
    requires Wrote(m1, o1, m2, o2, p, if own then pa + n * PGSIZE else 0, Leaf(root, vpn + n))
    requires pa % PGSIZE == 0 && 0 !in o && (forall x :: x in o ==> x % PGSIZE == 0)
    requires own ==> pa + n * PGSIZE in o && o[pa + n * PGSIZE].Kernel?
    ensures UsesRange(m, o, m2, o2, root, vpn, n + 1, pa, own)
  {
    hide NewUse;
    forall x | x in o && !o[x].Listed? ensures o2[x] == NewUse(o[x], x, root, vpn, n + 1, pa, own) {
      NewUseNext(o[x], x, root, vpn, n, pa, own);
    }
  }

  /** What `mappages` needs of its caller: no page of the range is mapped, and a page that the user may access is
      handed over by the kernel. */
  ghost predicate CanMap(m: Memory, o: Uses, root: nat, vpn: nat, n: nat, pa: nat, flags: nat, own: bool) {
    && root in o && o[root].Root? && vpn + n <= MAXVPN && pa % PGSIZE == 0
    && V(flags) && IsLeaf(flags) && flags < 1024 && (U(flags) ==> own)
    && (forall v :: vpn <= v < vpn + n ==> Lookup(m, root, v) == 0)
    && (own ==> forall k :: 0 <= k < n ==> KernelData(m, o, pa + k * PGSIZE))
  }

  ghost predicate KernelData(m: Memory, o: Uses, q: nat) {
    q != 0 && q in o && q in m && o[q].Kernel? && m[q].Data? && |m[q].bytes| == PGSIZE
  }

  /** One round of the loop of `mappages`, after `walk` has found entry `I0(vpn + n)` of `p`. */
  lemma MapStep(m: Memory, o: Uses, m1: Memory, o1: Uses, p: nat, root: nat, vpn: nat, n: nat, all: nat, pa: nat,
      flags: nat, own: bool, head: nat, nfree: nat)
    requires Trees(m, o) && CanMap(m, o, root, vpn, all, pa, flags, own) && n < all
    requires Trees(m1, o1) && FreeList(m1, o1, head, nfree) && Mapped(m, o, m1, o1, root, vpn, n, pa, flags, own)
    requires p in o1 && o1[p] == Low(root, I2(vpn + n), I1(vpn + n))
    ensures IsTable(m1, p) && I0(vpn + n) < 512 && !V(Entry(m1, p, I0(vpn + n)))
    ensures var q := if own then pa + n * PGSIZE else 0; q in o1 ==> o1[q].Kernel?
    ensures
      var m2 := SetEntry(m1, p, I0(vpn + n), Pte(pa + n * PGSIZE, flags));
      var o2 := Owning(o1, if own then pa + n * PGSIZE else 0, Leaf(root, vpn + n));
      Trees(m2, o2) && FreeList(m2, o2, head, nfree) && Mapped(m, o, m2, o2, root, vpn, n + 1, pa, flags, own)
  {
    hide DownRoot, DownMid, DownLow, Up, Lookup, FreeList, I2, I1, I0, Entry, Mapped;
    var q := if own then pa + n * PGSIZE else 0;
    var e := Pte(pa + n * PGSIZE, flags);
    MapReady(m, o, m1, o1, root, vpn, n, all, pa, flags, own);
    LowFound(m1, o1, p, vpn + n);
    EntryBits(pa + n * PGSIZE, flags);
    MapPage(m1, o1, p, vpn + n, e, q);
    var m2, o2 := SetEntry(m1, p, I0(vpn + n), e), Owning(o1, q, Leaf(root, vpn + n));
    MapList(m1, o1, m2, o2, p, q, Leaf(root, vpn + n), head, nfree);
    MappedNext(m, o, m1, o1, m2, o2, p, root, vpn, n, pa, flags, own);
  }

  lemma EntryBits(pa: nat, flags: nat)
    requires flags < 1024
    ensures IsLeaf(Pte(pa, flags)) == IsLeaf(flags) && U(Pte(pa, flags)) == U(flags) && V(Pte(pa, flags)) == V(flags)
  {
    Bits(pa / PGSIZE, flags);
  }

  lemma Bits(k: nat, flags: nat)
    ensures (k * 1024 + flags) % 16 == flags % 16 && (k * 1024 + flags) / 16 == k * 64 + flags / 16
    ensures (k * 64 + flags / 16) % 2 == flags / 16 % 2
  {
    var f, g := flags / 16, flags % 16;
    assert k * 1024 + flags == (k * 64 + f) * 16 + g;
    Div16(k * 64 + f, g);
    assert k * 64 + f == (k * 32) * 2 + f;
  }

  lemma Div16(a: nat, g: nat)
    requires g < 16
    ensures (a * 16 + g) / 16 == a && (a * 16 + g) % 16 == g
  {
  }

  lemma MapReady(m: Memory, o: Uses, m1: Memory, o1: Uses, root: nat, vpn: nat, n: nat, all: nat, pa: nat, flags: nat,
      own: bool)
    requires CanMap(m, o, root, vpn, all, pa, flags, own) && n < all
    requires Mapped(m, o, m1, o1, root, vpn, n, pa, flags, own)
    ensures Lookup(m1, root, vpn + n) == 0
    ensures (own ==> KernelData(m1, o1, pa + n * PGSIZE) && o[pa + n * PGSIZE].Kernel?)
  {
    hide Lookup, V, U, IsLeaf;
    assert own ==> KernelData(m, o, pa + n * PGSIZE);
  }

  lemma MapList(m: Memory, o: Uses, m': Memory, o': Uses, p: nat, q: nat, use: Use, head: nat, n: nat)
    requires FreeList(m, o, head, n) && Wrote(m, o, m', o', p, q, use) && !use.Listed? && (q in o ==> !o[q].Listed?)
    ensures FreeList(m', o', head, n)
  {
    ListSame(m, o, m', o', head, n);
  }

  /** perm | PTE_V. */
  function WithV(perm: nat): (flags: nat)
    ensures V(flags)
  {
    if perm % 2 == 1 then perm else perm + 1
  }

  lemma RootStays(m: Memory, o: Uses, m1: Memory, o1: Uses, root: nat, vpn: nat, n: nat, pa: nat, flags: nat, own: bool)
    requires flags < 1024 && Mapped(m, o, m1, o1, root, vpn, n, pa, flags, own) && root in o && o[root].Root?
    ensures root in o1 && o1[root].Root? && o1.Keys == o.Keys
  {
    hide Lookup;
  }
}
