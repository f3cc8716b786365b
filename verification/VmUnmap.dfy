/** What unmapping a range of virtual pages does. */
module VmUnmap {
  import opened Sv39
  import opened VmState
  import opened VmRange

  ghost predicate UnmapsRange(m: Memory, m': Memory, o: Uses, root: nat, vpn: nat, n: nat) {
    forall r, v :: r in o && o[r].Root? && 0 <= v < MAXVPN ==>
      Lookup(m', r, v) == if r == root && vpn <= v < vpn + n then 0 else Lookup(m, r, v)
  }

  ghost predicate InLeaves(u: Use, root: nat, vpn: nat, n: nat) {
    u.Leaf? && u.root == root && vpn <= u.vpn < vpn + n
  }

  /** The user memory of the range is free, or the kernel's; every other page has kept its use, and its content
      unless it is a table page. */
  ghost predicate Released(m: Memory, o: Uses, m': Memory, o': Uses, root: nat, vpn: nat, n: nat, free: bool) {
    && m.Keys == o.Keys && m'.Keys == o.Keys && o'.Keys == o.Keys
    && (forall p :: p in o ==>
         if InLeaves(o[p], root, vpn, n) then (if free then o'[p].Listed? else o'[p].Kernel? && m'[p] == m[p])
         else o'[p] == o[p] && (!IsTree(o[p]) ==> m'[p] == m[p]))
  }

  ghost predicate Unmapped(m: Memory, o: Uses, m': Memory, o': Uses, root: nat, vpn: nat, n: nat, free: bool) {
    UnmapsRange(m, m', o, root, vpn, n) && Released(m, o, m', o', root, vpn, n, free)
  }

  /** The virtual page is backed by its own page of user memory. */
  ghost predicate OwnedAt(m: Memory, o: Uses, root: nat, v: nat) {
    V(Lookup(m, root, v)) && Pa(Lookup(m, root, v)) in o && o[Pa(Lookup(m, root, v))] == Leaf(root, v)
  }

  /** What `uvmunmap` needs of its caller: every page of the range is mapped, and owned if it is to be freed. */
  ghost predicate CanUnmap(m: Memory, o: Uses, root: nat, vpn: nat, n: nat, free: bool) {
    && root in o && o[root].Root? && vpn + n <= MAXVPN
    && (forall v :: vpn <= v < vpn + n ==> V(Lookup(m, root, v)))
    && (free ==> forall v :: vpn <= v < vpn + n ==> OwnedAt(m, o, root, v))
  }

  lemma UnmappedNone(m: Memory, o: Uses, root: nat, vpn: nat, free: bool)
    requires Trees(m, o)
    ensures Unmapped(m, o, m, o, root, vpn, 0, free)
  {
    hide Lookup, DownRoot, DownMid, DownLow, Up;
  }

  /** The page of user memory mapped at `v`, or 0. */
  ghost function Backing(m: Memory, o: Uses, root: nat, v: nat): nat {
    if OwnedAt(m, o, root, v) then Pa(Lookup(m, root, v)) else 0
  }

  lemma BackingIs(m: Memory, o: Uses, root: nat, v: nat)
    requires Trees(m, o)
    ensures var q := Backing(m, o, root, v);
              if q in o then o[q] == Leaf(root, v) else forall x :: x in o ==> o[x] != Leaf(root, v)
  {
    hide Lookup, Pa, V;
    forall x | x in o && o[x] == Leaf(root, v) ensures Backing(m, o, root, v) in o {
      OneLeaf(m, o, x, x);
    }
  }

  ghost function Marked(o: Uses, q: nat, free: bool, nfree: nat): Uses {
    Owning(o, q, if free then Listed(nfree) else Kernel)
  }

  lemma UnmapTrees(m: Memory, o: Uses, p: nat, root: nat, v: nat, free: bool, head: nat, nfree: nat)
    requires Trees(m, o) && FreeList(m, o, head, nfree) && v < MAXVPN && p in o && o[p] == Low(root, I2(v), I1(v))
    requires V(Lookup(m, root, v)) && (free ==> OwnedAt(m, o, root, v))
    ensures IsTable(m, p) && I0(v) < 512 && p != Backing(m, o, root, v)
    ensures
      var q := Backing(m, o, root, v);
      var m1 := if free then m[q := Free(head)] else m;
      var m2, o2 := SetEntry(m1, p, I0(v), 0), Marked(o, q, free, nfree);
      && Trees(m2, o2) && MapSet(m, m2, o, root, v, 0)
  {
    hide DownRoot, DownMid, DownLow, Up, Lookup, FreeList, I2, I1, I0, V, MapSet, SameMaps;
    BackingIs(m, o, root, v);
    var q := Backing(m, o, root, v);
    UnmapPage(m, o, p, v, q);
    if free {
      var m2 := SetEntry(m, p, I0(v), 0);
      Retyped(m2, Owning(o, q, Kernel), q, Free(head), Listed(nfree));
      assert m2[q := Free(head)] == SetEntry(m[q := Free(head)], p, I0(v), 0);
      assert Owning(o, q, Kernel)[q := Listed(nfree)] == Marked(o, q, free, nfree);
      UnmapMaps(m, m2, m2[q := Free(head)], o, Owning(o, q, Kernel), root, v);
    }
  }

  lemma UnmapMaps(m: Memory, m1: Memory, m2: Memory, o: Uses, o1: Uses, root: nat, v: nat)
    requires MapSet(m, m1, o, root, v, 0) && SameMaps(m1, m2, o1) && forall r ::
              r in o && o[r].Root? ==> r in o1 && o1[r].Root?
    ensures MapSet(m, m2, o, root, v, 0)
  {
    hide Lookup;
  }

  lemma UnmapList(m: Memory, o: Uses, p: nat, root: nat, v: nat, free: bool, head: nat, nfree: nat)
    requires Typed(m, o) && FreeList(m, o, head, nfree) && I0(v) < 512 && p in o && o[p].Low?
    requires free ==> OwnedAt(m, o, root, v)
    requires p != Backing(m, o, root, v)
    ensures IsTable(m, p)
    ensures
      var q := Backing(m, o, root, v);
      var m1 := if free then m[q := Free(head)] else m;
      FreeList(SetEntry(m1, p, I0(v), 0), Marked(o, q, free, nfree), if free then q else head, if free then nfree + 1
          else nfree)
  {
    hide Lookup, Pa, V, I0;
    var q := Backing(m, o, root, v);
    if free {
      ListPush(m, o, head, nfree, q);
      var m1, o1 := m[q := Free(head)], o[q := Listed(nfree)];
      MapList(m1, o1, SetEntry(m1, p, I0(v), 0), o1, p, 0, Kernel, q, nfree + 1);
    } else {
      MapList(m, o, SetEntry(m, p, I0(v), 0), Marked(o, q, free, nfree), p, q, Kernel, head, nfree);
    }
  }

  lemma UnmappedNext(m: Memory, o: Uses, m1: Memory, o1: Uses, m2: Memory, o2: Uses, p: nat, q: nat, root: nat,
      vpn: nat, n: nat, free: bool, nfree: nat)
    requires Unmapped(m, o, m1, o1, root, vpn, n, free) && MapSet(m1, m2, o1, root, vpn + n, 0)
    requires m2.Keys == m1.Keys && o2 == Marked(o1, q, free, nfree) && p in o1 && o1[p].Low?
    requires forall x :: x in m1 && x != p && (x == q ==> !free) ==> m2[x] == m1[x]
    requires if q in o1 then o1[q] == Leaf(root, vpn + n) else forall x :: x in o1 ==> o1[x] != Leaf(root, vpn + n)
    requires forall x :: x in o1 && o1[x] == Leaf(root, vpn + n) ==> x == q
    ensures Unmapped(m, o, m2, o2, root, vpn, n + 1, free)
  {
    hide Lookup;
    forall r, v | r in o && o[r].Root? && 0 <= v < MAXVPN
      ensures Lookup(m2, r, v) == if r == root && vpn <= v < vpn + n + 1 then 0 else Lookup(m, r, v)
    {
      assert o1[r] == o[r];
    }
  }

  lemma UnmapReady(m: Memory, o: Uses, m1: Memory, o1: Uses, root: nat, vpn: nat, n: nat, all: nat, free: bool)
    requires CanUnmap(m, o, root, vpn, all, free) && n <= all && Unmapped(m, o, m1, o1, root, vpn, n, free)
    ensures root in o1 && o1[root].Root?
    ensures n < all ==>
              V(Lookup(m1, root, vpn + n)) && Lookup(m1, root, vpn + n) == Lookup(m, root, vpn + n)
              && (free ==> OwnedAt(m1, o1, root, vpn + n))
  {
    hide Lookup, V, Pa;
    if n < all && free {
      assert OwnedAt(m, o, root, vpn + n);
    }
  }

  /** One round of the loop of `uvmunmap`, after `walk` has found entry `I0(vpn + n)` of `p`. */
  lemma UnmapStep(m: Memory, o: Uses, m1: Memory, o1: Uses, p: nat, root: nat, vpn: nat, n: nat, all: nat, free: bool,
      head: nat, nfree: nat)
    requires Trees(m1, o1) && FreeList(m1, o1, head, nfree) && p in o1 && o1[p] == Low(root, I2(vpn + n), I1(vpn + n))
    requires CanUnmap(m, o, root, vpn, all, free) && n < all && Unmapped(m, o, m1, o1, root, vpn, n, free)
    ensures IsTable(m1, p) && I0(vpn + n) < 512 && 0 !in o1
    ensures V(Entry(m1, p, I0(vpn + n))) && IsLeaf(Entry(m1, p, I0(vpn + n)))
    ensures Entry(m1, p, I0(vpn + n)) == Lookup(m1, root, vpn + n)
    ensures
      var q := Backing(m1, o1, root, vpn + n);
      && p != q && (free ==> q == Pa(Entry(m1, p, I0(vpn + n))) && q in o1 && !o1[q].Listed? && q % PGSIZE == 0)
      && var ma := if free then m1[q := Free(head)] else m1;
         var m2, o2 := SetEntry(ma, p, I0(vpn + n), 0), Marked(o1, q, free, nfree);
         && Trees(m2, o2) && FreeList(m2, o2, if free then q else head, if free then nfree + 1 else nfree)
         && Unmapped(m, o, m2, o2, root, vpn, n + 1, free)
  {
    hide DownRoot, DownMid, DownLow, Up, Lookup, FreeList, I2, I1, I0, Entry, Unmapped, V, IsLeaf, MapSet, CanUnmap;
    UnmapReady(m, o, m1, o1, root, vpn, n, all, free);
    assert vpn + n < MAXVPN by { InSpace(m, o, root, vpn, n, all, free); }
    LowFound(m1, o1, p, vpn + n);
    LeafEntry(m1, o1, p, I0(vpn + n));
    UnmapTrees(m1, o1, p, root, vpn + n, free, head, nfree);
    UnmapList(m1, o1, p, root, vpn + n, free, head, nfree);
    BackingIs(m1, o1, root, vpn + n);
    var q := Backing(m1, o1, root, vpn + n);
    var ma := if free then m1[q := Free(head)] else m1;
    forall x | x in o1 && o1[x] == Leaf(root, vpn + n) ensures x == q {
      OneLeaf(m1, o1, x, q);
    }
    UnmappedNext(m, o, m1, o1, SetEntry(ma, p, I0(vpn + n), 0), Marked(o1, q, free, nfree), p, q, root, vpn, n, free,
        nfree);
  }

  lemma InSpace(m: Memory, o: Uses, root: nat, vpn: nat, n: nat, all: nat, free: bool)
    requires CanUnmap(m, o, root, vpn, all, free) && n < all
    ensures vpn + n < MAXVPN
  {
  }

  lemma LeafEntry(m: Memory, o: Uses, p: nat, i: nat)
    requires Trees(m, o) && p in o && o[p].Low? && i < 512 && V(Entry(m, p, i))
    ensures IsLeaf(Entry(m, p, i))
  {
    assert GoodLeaf(o, o[p], i, Entry(m, p, i));
  }

  lemma Reached(m: Memory, root: nat, v: nat)
    requires V(Lookup(m, root, v))
    ensures LowPage(m, root, v) != 0
  {
  }
}
