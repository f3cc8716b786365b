/** Growing an address space page by page, and taking it back. */
module VmGrow {
  import opened Sv39
  import opened VmState
  import opened VmRange
  import opened VmUnmap

  /** What new pages hold and how they may be used: zeros and fixed permissions, or what another address space has
      there. */
  datatype Source = Zeroed(flags: nat) | CopyOf(m: Memory, root: nat)

  ghost function FlagsFor(s: Source, v: nat): nat {
    match s
    case Zeroed(flags) => flags
    case CopyOf(m, root) => Flags(Lookup(m, root, v))
  }

  ghost function PageFor(s: Source, v: nat): Page {
    match s
    case Zeroed(_) => Data(Fill(PGSIZE, 0))
    case CopyOf(m, root) => if Pa(Lookup(m, root, v)) in m then m[Pa(Lookup(m, root, v))] else Free(0)
  }

  /** Virtual page `v` is mapped to a page that was free before. */
  ghost predicate NewPage(m: Memory, o: Uses, m': Memory, o': Uses, root: nat, v: nat, s: Source) {
    var e := Lookup(m', root, v);
    && V(e) && Flags(e) == FlagsFor(s, v) && Pa(e) in o && o[Pa(e)].Listed?
    && Pa(e) in o' && o'[Pa(e)] == Leaf(root, v) && Pa(e) in m' && m'[Pa(e)] == PageFor(s, v)
  }

  /** Virtual pages `lo`, ..., `lo + n - 1` of `root` are new; table pages may be new; nothing else has changed. */
  ghost predicate Grown(m: Memory, o: Uses, m': Memory, o': Uses, root: nat, lo: nat, n: nat, s: Source) {
    && (forall v :: lo <= v < lo + n ==> NewPage(m, o, m', o', root, v, s))
    && (forall r, v ::
          r in o && o[r].Root? && 0 <= v < MAXVPN && !(r == root && lo <= v < lo + n) ==>
          Lookup(m', r, v) == Lookup(m, r, v))
    && GrownUses(m, o, m', o', root, lo, n)
  }

  ghost predicate GrownUses(m: Memory, o: Uses, m': Memory, o': Uses, root: nat, lo: nat, n: nat) {
    && o'.Keys == o.Keys && m.Keys == o.Keys && m'.Keys == o.Keys
    && (forall p :: p in o && !o[p].Listed? ==> o'[p] == o[p] && (!IsTree(o[p]) ==> m'[p] == m[p]))
    && (forall p ::
          p in o && o[p].Listed? ==> o'[p].Listed? || o'[p].Mid? || o'[p].Low? || InLeaves(o'[p], root, lo, n))
  }

  lemma GrownNone(m: Memory, o: Uses, root: nat, lo: nat, s: Source)
    requires Trees(m, o)
    ensures Grown(m, o, m, o, root, lo, 0, s)
  {
    hide Lookup, DownRoot, DownMid, DownLow, Up;
  }

  lemma GrownNext(m: Memory, o: Uses, m1: Memory, o1: Uses, m2: Memory, o2: Uses, root: nat, lo: nat, n: nat, s: Source)
    requires Grown(m, o, m1, o1, root, lo, n, s) && Grown(m1, o1, m2, o2, root, lo + n, 1, s)
    requires root in o && o[root].Root? && lo + n < MAXVPN
    ensures Grown(m, o, m2, o2, root, lo, n + 1, s)
  {
    hide Lookup, Pa, V, Flags, FlagsFor, PageFor;
    forall v | lo <= v < lo + n + 1 ensures NewPage(m, o, m2, o2, root, v, s) {
      if v == lo + n {
        assert NewPage(m1, o1, m2, o2, root, v, s);
      } else {
        assert NewPage(m, o, m1, o1, root, v, s);
      }
    }
    forall r, v | r in o && o[r].Root? && 0 <= v < MAXVPN && !(r == root && lo <= v < lo + n + 1)
        ensures Lookup(m2, r, v) == Lookup(m, r, v) {
      assert o1[r].Root?;
    }
  }

  lemma GrownTables(m: Memory, o: Uses, m1: Memory, o1: Uses, m2: Memory, o2: Uses, root: nat, lo: nat, n: nat,
      s: Source)
    requires Grown(m, o, m1, o1, root, lo, n, s) && TablesGrew(m1, o1, m2, o2) && root in o && o[root].Root?
    requires lo + n <= MAXVPN
    ensures Grown(m, o, m2, o2, root, lo, n, s)
  {
    hide Lookup, Pa, V, Flags, FlagsFor, PageFor;
    forall v | lo <= v < lo + n ensures NewPage(m, o, m2, o2, root, v, s) {
      assert NewPage(m, o, m1, o1, root, v, s);
    }
    forall r, v | r in o && o[r].Root? && 0 <= v < MAXVPN && !(r == root && lo <= v < lo + n)
        ensures Lookup(m2, r, v) == Lookup(m, r, v) {
      assert o1[r].Root?;
    }
  }

  ghost predicate Vacant(m: Memory, root: nat, lo: nat, n: nat) {
    forall v :: lo <= v < lo + n ==> Lookup(m, root, v) == 0
  }

  /** New pages can be unmapped and freed. */
  lemma GrownOwned(m: Memory, o: Uses, m1: Memory, o1: Uses, root: nat, lo: nat, n: nat, s: Source)
    requires Grown(m, o, m1, o1, root, lo, n, s) && root in o && o[root].Root? && lo + n <= MAXVPN
    ensures CanUnmap(m1, o1, root, lo, n, true)
  {
    hide Lookup, Pa, V, Flags, FlagsFor, PageFor;
    forall v | lo <= v < lo + n ensures V(Lookup(m1, root, v)) && OwnedAt(m1, o1, root, v) {
      assert NewPage(m, o, m1, o1, root, v, s);
    }
  }

  /** Taking all new pages back restores every address space and gives all user memory back. */
  lemma GrownUndone(m: Memory, o: Uses, m1: Memory, o1: Uses, m2: Memory, o2: Uses, root: nat, lo: nat, n: nat,
      s: Source)
    requires Trees(m, o) && Vacant(m, root, lo, n) && root in o && o[root].Root?
    requires Grown(m, o, m1, o1, root, lo, n, s) && Unmapped(m1, o1, m2, o2, root, lo, n, true)
    ensures TablesGrew(m, o, m2, o2)
  {
    hide Lookup, DownRoot, DownMid, DownLow, Up, NewPage;
    forall p | p in o ensures !InLeaves(o[p], root, lo, n) {
      if InLeaves(o[p], root, lo, n) {
        NoLeaf(m, o, root, o[p].vpn);
      }
    }
    forall r, v | r in o && o[r].Root? && 0 <= v < MAXVPN ensures Lookup(m2, r, v) == Lookup(m, r, v) {
      assert o1[r].Root?;
    }
  }

  // ---------------------------------------------------------------- one new page

  lemma LeafFlags(e: nat)
    ensures Flags(e) < 1024 && IsLeaf(Flags(e)) == IsLeaf(e) && V(Flags(e)) == V(e)
  {
    assert Pte(Pa(e), Flags(e)) == e;
    hide Pte, IsLeaf, V, U;
    EntryBits(Pa(e), Flags(e));
  }

  /** kalloc, fill, mappages: the page is new. */
  lemma AddedOne(m: Memory, o: Uses, m1: Memory, o1: Uses, m2: Memory, o2: Uses, root: nat, v: nat, pa: nat,
      flags: nat, s: Source)
    requires Trees(m, o) && Taken(m, o, m1, o1, pa) && m1[pa] == PageFor(s, v) && flags == FlagsFor(s, v) && V(flags)
    requires flags < 1024
    requires Mapped(m1, o1, m2, o2, root, v, 1, pa, flags, true) && root in o && o[root].Root? && v < MAXVPN
    ensures Grown(m, o, m2, o2, root, v, 1, s)
  {
    hide Lookup, Trees, V, PageFor, FlagsFor, Pte, Flags, Pa, UsesRange, MapsRange, GrownUses, SameMaps;
    TakenTrees(m, o, m1, o1, pa);
    Aligned(m, o);
    AddedUses(m, o, m1, o1, m2, o2, root, v, pa);
    AddedMaps(m, o, m1, o1, m2, root, v, 1, pa, flags);
    EntryBits(pa, flags);
    assert NewPage(m, o, m2, o2, root, v, s);
  }

  lemma Aligned(m: Memory, o: Uses)
    requires Trees(m, o)
    ensures (forall p :: p in o ==> p % PGSIZE == 0) && 0 !in o && m.Keys == o.Keys
  {
  }

  lemma AddedMaps(m: Memory, o: Uses, m1: Memory, o1: Uses, m2: Memory, root: nat, v: nat, n: nat, pa: nat, flags: nat)
    requires SameMaps(m, m1, o) && flags < 1024 && MapsRange(m1, m2, o1, root, v, n, pa, flags) && n <= 1
    requires forall r :: r in o && o[r].Root? ==> r in o1 && o1[r].Root?
    ensures root in o && o[root].Root? && v < MAXVPN && n == 1 ==> Lookup(m2, root, v) == Pte(pa, flags)
    ensures forall r, x ::
              r in o && o[r].Root? && 0 <= x < MAXVPN && !(r == root && v <= x < v + n) ==>
              Lookup(m2, r, x) == Lookup(m, r, x)
  {
    hide Lookup, Pte;
    forall r, x | r in o && o[r].Root? && 0 <= x < MAXVPN && !(r == root && v <= x < v + n)
        ensures Lookup(m2, r, x) == Lookup(m, r, x) {
      assert Lookup(m1, r, x) == Lookup(m, r, x);
    }
  }

  lemma AddedUses(m: Memory, o: Uses, m1: Memory, o1: Uses, m2: Memory, o2: Uses, root: nat, v: nat, pa: nat)
    requires Taken(m, o, m1, o1, pa) && (forall p :: p in o ==> p % PGSIZE == 0) && m.Keys == o.Keys
    requires UsesRange(m1, o1, m2, o2, root, v, 1, pa, true)
    ensures GrownUses(m, o, m2, o2, root, v, 1) && pa in o2 && pa in m2 && o2[pa] == Leaf(root, v) && m2[pa] == m1[pa]
  {
    hide NewUse;
    NewUses(m1, o1, m2, o2, root, v, pa);
  }

  lemma NewUses(m1: Memory, o1: Uses, m2: Memory, o2: Uses, root: nat, v: nat, pa: nat)
    requires UsesRange(m1, o1, m2, o2, root, v, 1, pa, true) && pa in o1 && o1[pa].Kernel? && forall p ::
              p in o1 ==> p % PGSIZE == 0
    ensures o2[pa] == Leaf(root, v) && m2[pa] == m1[pa]
    ensures forall p :: p in o1 && !o1[p].Listed? && p != pa ==> o2[p] == o1[p]
  {
    hide NewUse;
    forall p | p in o1 && !o1[p].Listed? ensures o2[p] == if p == pa then Leaf(root, v) else o1[p] {
      NewUseNext(o1[p], p, root, v, 0, pa, true);
      assert NewUse(o1[p], p, root, v, 0, pa, true) == o1[p] by { NewUseNone(o1[p], p, root, v, pa); }
    }
  }

  lemma NewUseNone(u: Use, p: nat, root: nat, v: nat, pa: nat)
    ensures NewUse(u, p, root, v, 0, pa, true) == u
  {
  }

  /** kalloc, fill, a failing mappages, kfree: at most table pages are new. */
  lemma AddedNone(m: Memory, o: Uses, m1: Memory, o1: Uses, m2: Memory, o2: Uses, m3: Memory, o3: Uses, root: nat,
      v: nat, pa: nat, flags: nat)
    requires Trees(m, o) && Taken(m, o, m1, o1, pa) && flags < 1024
    requires Mapped(m1, o1, m2, o2, root, v, 0, pa, flags, true) && Trees(m2, o2)
    requires pa in m3 && pa in o3 && m3 == m2[pa := m3[pa]] && o3 == o2[pa := o3[pa]] && o3[pa].Listed? && m3[pa].Free?
    ensures Trees(m3, o3) && TablesGrew(m, o, m3, o3)
  {
    hide Trees, MapsRange, UsesRange, Lookup;
    TakenTrees(m, o, m1, o1, pa);
    Aligned(m, o);
    NoneUses(m, o, m1, o1, m2, o2, root, v, pa);
    AddedMaps(m, o, m1, o1, m2, root, v, 0, pa, flags);
    Retyped(m2, o2, pa, m3[pa], o3[pa]);
    assert SameMaps(m, m2, o);
    NoneMaps(m, m2, m3, o, o2);
  }

  lemma NoneMaps(m: Memory, m2: Memory, m3: Memory, o: Uses, o2: Uses)
    requires SameMaps(m, m2, o) && SameMaps(m2, m3, o2) && forall r :: r in o && o[r].Root? ==> r in o2 && o2[r].Root?
    ensures SameMaps(m, m3, o)
  {
    DeepenMaps(m, m2, m3, o, o2);
  }

  lemma NoneUses(m: Memory, o: Uses, m1: Memory, o1: Uses, m2: Memory, o2: Uses, root: nat, v: nat, pa: nat)
    requires Taken(m, o, m1, o1, pa) && m.Keys == o.Keys
    requires UsesRange(m1, o1, m2, o2, root, v, 0, pa, true)
    ensures o2.Keys == o.Keys && m2.Keys == o.Keys && o2[pa].Kernel?
    ensures forall p :: p in o && !o[p].Listed? ==> o2[p] == o[p] && (!IsTree(o[p]) ==> m2[p] == m[p])
    ensures forall p :: p in o && o[p].Listed? && p != pa ==> o2[p].Listed? || o2[p].Mid? || o2[p].Low?
  {
    forall p | p in o1 && !o1[p].Listed? ensures o2[p] == o1[p] {
      NewUseNone(o1[p], p, root, v, pa);
    }
  }

  lemma MapOne(m: Memory, o: Uses, root: nat, v: nat, pa: nat, flags: nat)
    requires root in o && o[root].Root? && v < MAXVPN && Lookup(m, root, v) == 0 && pa % PGSIZE == 0
    requires V(flags) && IsLeaf(flags) && flags < 1024 && KernelData(m, o, pa)
    ensures CanMap(m, o, root, v, 1, pa, WithV(flags), true) && WithV(flags) == flags
  {
    hide Lookup, IsLeaf, U;
    assert pa + 0 * PGSIZE == pa;
  }

  lemma FilledReady(m: Memory, o: Uses, mk: Memory, m1: Memory, o1: Uses, root: nat, v: nat, pa: nat, flags: nat,
      head: nat, n: nat)
    requires Trees(m, o) && Taken(m, o, mk, o1, pa) && pa in m1 && m1 == mk[pa := m1[pa]] && SameMaps(m, m1, o)
    requires FreeList(mk, o1, head, n)
    requires root in o && o[root].Root? && v < MAXVPN && Lookup(m, root, v) == 0 && V(flags) && IsLeaf(flags)
    requires flags < 1024
    requires m1[pa].Data? && |m1[pa].bytes| == PGSIZE
    ensures CanMap(m1, o1, root, v, 1, pa, WithV(flags), true) && WithV(flags) == flags && FreeList(m1, o1, head, n)
  {
    hide DownRoot, DownMid, DownLow, Up, Lookup, IsLeaf, U, FreeList;
    ListSame(mk, o1, m1, o1, head, n);
    MapOne(m1, o1, root, v, pa, flags);
  }

  lemma MappedKeeps(m1: Memory, o1: Uses, m2: Memory, o2: Uses, root: nat, v: nat, pa: nat, flags: nat)
    requires flags < 1024 && Mapped(m1, o1, m2, o2, root, v, 0, pa, flags, true) && pa in o1 && o1[pa].Kernel?
    ensures pa in o2 && o2[pa].Kernel?
  {
    NewUseNone(o1[pa], pa, root, v, pa);
  }

  /** kalloc and clearing: an empty address space. */
  lemma Created(m: Memory, o: Uses, mk: Memory, m1: Memory, o1: Uses, root: nat, head: nat, n: nat)
    requires Trees(m, o) && Taken(m, o, mk, o1, root) && m1 == mk[root := Table(Fill(512, 0))]
    requires FreeList(mk, o1, head, n)
    ensures Trees(m1, o1[root := Root]) && SameMaps(m, m1, o) && Vacant(m1, root, 0, MAXVPN)
    ensures FreeList(m1, o1[root := Root], head, n) && 0 !in o && m.Keys == o.Keys
  {
    hide DownRoot, DownMid, DownLow, Up, Lookup;
    TakenTrees(m, o, m1, o1, root);
    assert forall j :: 0 <= j < 512 ==> Entry(m1, root, j) == 0;
    NewRoot(m1, o1, root);
    ListSame(mk, o1, m1, o1[root := Root], head, n);
  }

  /** Number of pages that cover `sz` bytes, PGROUNDUP(sz) / PGSIZE. */
  function Pages(sz: nat): (n: nat)
    ensures n * PGSIZE - PGSIZE < sz <= n * PGSIZE
  {
    (sz + PGSIZE - 1) / PGSIZE
  }

  lemma StillVacant(m: Memory, o: Uses, m1: Memory, o1: Uses, root: nat, lo: nat, n: nat, all: nat, s: Source)
    requires Grown(m, o, m1, o1, root, lo, n, s) && root in o && o[root].Root? && Vacant(m, root, lo, all) && n < all
    requires lo + all <= MAXVPN
    ensures Lookup(m1, root, lo + n) == 0 && root in o1 && o1[root].Root?
  {
    hide Lookup, NewPage;
  }

  /** The pages still to be copied are as they were. */
  lemma CopyReady(m: Memory, o: Uses, m1: Memory, o1: Uses, from: nat, root: nat, n: nat, s: Source)
    requires Trees(m, o) && Grown(m, o, m1, o1, root, 0, n, s) && from in o && o[from].Root? && from != root
    requires n < MAXVPN
    requires OwnedAt(m, o, from, n) && s == CopyOf(m, from)
    ensures from in o1 && o1[from].Root? && Lookup(m1, from, n) == Lookup(m, from, n) && V(Lookup(m1, from, n))
    ensures
      var q := Pa(Lookup(m1, from, n));
      q in m1 && m1[q] == PageFor(s, n) && m1[q].Data? && |m1[q].bytes| == PGSIZE
          && Flags(Lookup(m1, from, n)) == FlagsFor(s, n)
  {
    hide Lookup, NewPage, DownRoot, DownMid, DownLow, Up;
  }

  /** After a successful fork copy both address spaces hold the same bytes with the same permissions, on different
      pages. */
  lemma CopiesEqual(m: Memory, o: Uses, m': Memory, o': Uses, from: nat, root: nat, n: nat, v: nat)
    requires Trees(m, o) && Grown(m, o, m', o', root, 0, n, CopyOf(m, from)) && from in o && o[from].Root?
    requires from != root && v < n <= MAXVPN
    requires OwnedAt(m, o, from, v)
    ensures
      var e, e' := Lookup(m', from, v), Lookup(m', root, v);
      && V(e) && V(e') && Flags(e') == Flags(e) && Pa(e') != Pa(e)
      && Pa(e) in m' && Pa(e') in m' && m'[Pa(e')] == m'[Pa(e)] && m'[Pa(e)] == m[Pa(e)] && e == Lookup(m, from, v)
  {
    hide Lookup, DownRoot, DownMid, DownLow, Up;
    assert NewPage(m, o, m', o', root, v, CopyOf(m, from));
  }

  lemma VacantPart(m: Memory, root: nat, lo: nat, n: nat, k: nat)
    requires Vacant(m, root, lo, n) && k <= n
    ensures Vacant(m, root, lo, k)
  {
  }
}
