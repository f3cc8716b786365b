/** Three-level page tables (Sv39) in memory, and the finite map they stand for. */
module Sv39 {
  import opened Words

  const PGSIZE := 4096
  const MAXVA := 0x40_0000_0000
  /** Number of virtual pages below MAXVA. */
  const MAXVPN := 0x400_0000

  /** A physical page is on the free list, holds 512 page-table entries, or holds bytes. */
  datatype Page = Free(next: nat) | Table(ptes: seq<nat>) | Data(bytes: seq<byte>)

  /** What a physical page is in use for. `Mid` and `Low` are the page-table pages below a root, by the indices
      that lead to them; `Leaf` is user memory mapped at one virtual page; `Listed` is a free page with `rank` more
      free pages after it on the list. */
  datatype Use = Listed(rank: nat) | Root | Mid(root: nat, i2: nat) | Low(root: nat, i2: nat,
      i1: nat) | Leaf(root: nat, vpn: nat) | Kernel

  type Memory = map<nat, Page>
  type Uses = map<nat, Use>

  // ---------------------------------------------------------------- entries

  predicate V(e: nat) {
    e % 2 == 1
  }

  function Flags(e: nat): nat {
    e % 1024
  }

  function Pa(e: nat): (pa: nat)
    ensures pa % PGSIZE == 0
  {
    e / 1024 * PGSIZE
  }

  /** PA2PTE(pa) | flags. */
  function Pte(pa: nat, flags: nat): (e: nat)
    requires flags < 1024
    ensures Flags(e) == flags && (V(e) <==> flags % 2 == 1)
    ensures pa % PGSIZE == 0 ==> Pa(e) == pa
  {
    pa / PGSIZE * 1024 + flags
  }

  /** Some permission bit is set: the entry maps a page instead of pointing to the next level. */
  predicate IsLeaf(e: nat) {
    e % 16 / 2 != 0
  }

  function I2(vpn: nat): nat { vpn / 0x4_0000 }
  function I1(vpn: nat): nat { vpn / 0x200 % 0x200 }
  function I0(vpn: nat): nat { vpn % 0x200 }

  function VpnOf(i2: nat, i1: nat, i0: nat): nat {
    i2 * 0x4_0000 + i1 * 0x200 + i0
  }

  lemma VpnParts(vpn: nat)
    ensures I1(vpn) < 512 && I0(vpn) < 512 && VpnOf(I2(vpn), I1(vpn), I0(vpn)) == vpn
    ensures vpn < MAXVPN ==> I2(vpn) < 256
  {
    TwoSteps(vpn);
  }

  lemma VpnOfParts(i2: nat, i1: nat, i0: nat)
    requires i1 < 512 && i0 < 512
    ensures I2(VpnOf(i2, i1, i0)) == i2 && I1(VpnOf(i2, i1, i0)) == i1 && I0(VpnOf(i2, i1, i0)) == i0
  {
    var high, vpn := i2 * 512 + i1, VpnOf(i2, i1, i0);
    assert vpn == high * 512 + i0;
    TwoParts(i2, i1);
    TwoParts(high, i0);
    TwoSteps(vpn);
  }

  lemma TwoParts(high: nat, low: nat)
    requires low < 512
    ensures (high * 512 + low) / 512 == high && (high * 512 + low) % 512 == low
  {
  }

  lemma TwoSteps(v: nat)
    ensures v / 0x4_0000 == v / 512 / 512
  {
  }

  // ---------------------------------------------------------------- lookup

  function Entry(m: Memory, p: nat, i: nat): nat {
    if p in m && m[p].Table? && i < |m[p].ptes| then m[p].ptes[i] else 0
  }

  /** The page-table page that `walk` reaches at level 1, or at level 0; 0 if it finds no valid entry. */
  function MidPage(m: Memory, root: nat, vpn: nat): nat {
    var e := Entry(m, root, I2(vpn));
    if V(e) then Pa(e) else 0
  }

  function LowPage(m: Memory, root: nat, vpn: nat): nat {
    var mid := MidPage(m, root, vpn);
    var e := Entry(m, mid, I1(vpn));
    if mid != 0 && V(e) then Pa(e) else 0
  }

  /** The valid level-0 entry for a virtual page; 0 if there is none. */
  function Lookup(m: Memory, root: nat, vpn: nat): nat {
    var low := LowPage(m, root, vpn);
    var e := Entry(m, low, I0(vpn));
    if low != 0 && V(e) then e else 0
  }

  // ---------------------------------------------------------------- well-formed trees

  ghost predicate IsTable(m: Memory, p: nat) {
    p in m && m[p].Table? && |m[p].ptes| == 512
  }

  /** Every page is used as its use says. */
  ghost predicate Typed(m: Memory, o: Uses) {
    && m.Keys == o.Keys && 0 !in o
    && (forall p :: p in o ==> p % PGSIZE == 0)
    && (forall p :: p in o && (o[p].Root? || o[p].Mid? || o[p].Low?) ==> IsTable(m, p))
    && (forall p :: p in o && o[p].Leaf? ==> m[p].Data? && |m[p].bytes| == PGSIZE && o[p].vpn < MAXVPN)
    && (forall p :: p in o && o[p].Listed? ==> m[p].Free?)
  }

  /** Valid entries lead down to pages whose use says so. */
  ghost predicate DownRoot(m: Memory, o: Uses) {
    forall p, i :: p in o && o[p].Root? && 0 <= i < 512 && V(Entry(m, p, i)) ==>
      Flags(Entry(m, p, i)) == 1 && Pa(Entry(m, p, i)) in o && o[Pa(Entry(m, p, i))] == Mid(p, i)
  }

  ghost predicate DownMid(m: Memory, o: Uses) {
    forall p, i :: p in o && o[p].Mid? && 0 <= i < 512 && V(Entry(m, p, i)) ==>
      Flags(Entry(m, p, i)) == 1 && Pa(Entry(m, p, i)) in o && o[Pa(Entry(m, p, i))] == Low(o[p].root, o[p].i2, i)
  }

  /** The user may access the page. */
  predicate U(e: nat) {
    e / 16 % 2 == 1
  }

  /** A page that the user may access is the user memory of this very virtual page. Mappings that only the kernel
      may use, such as those of the trampoline and the trap frame, are free. */
  ghost predicate DownLow(m: Memory, o: Uses) {
    forall p, i :: p in o && o[p].Low? && 0 <= i < 512 && V(Entry(m, p, i)) ==> GoodLeaf(o, o[p], i, Entry(m, p, i))
  }

  ghost predicate GoodLeaf(o: Uses, u: Use, i: nat, e: nat)
    requires u.Low?
  {
    && IsLeaf(e)
    && (U(e) ==> Pa(e) in o && o[Pa(e)] == Leaf(u.root, VpnOf(u.i2, u.i1, i)))
  }

  /** Every table page and every leaf page is reached from its root. */
  ghost predicate Up(m: Memory, o: Uses) {
    && (forall p :: p in o && o[p].Mid? ==> UpMid(m, o, p))
    && (forall p :: p in o && o[p].Low? ==> UpLow(m, o, p))
    && (forall p :: p in o && o[p].Leaf? ==> UpLeaf(m, o, p))
  }

  ghost predicate UpMid(m: Memory, o: Uses, p: nat)
    requires p in o && o[p].Mid?
  {
    o[p].i2 < 256 && o[p].root in o && o[o[p].root].Root? && Entry(m, o[p].root, o[p].i2) == Pte(p, 1)
  }

  ghost predicate UpLow(m: Memory, o: Uses, p: nat)
    requires p in o && o[p].Low?
  {
    var e := Entry(m, o[p].root, o[p].i2);
    && o[p].i2 < 256 && o[p].i1 < 512 && o[p].root in o && o[o[p].root].Root?
    && V(e) && Entry(m, Pa(e), o[p].i1) == Pte(p, 1)
  }

  ghost predicate UpLeaf(m: Memory, o: Uses, p: nat)
    requires p in o && o[p].Leaf?
  {
    var e := Lookup(m, o[p].root, o[p].vpn);
    o[p].root in o && o[o[p].root].Root? && V(e) && Pa(e) == p
  }

  ghost predicate Trees(m: Memory, o: Uses) {
    Typed(m, o) && DownRoot(m, o) && DownMid(m, o) && DownLow(m, o) && Up(m, o)
  }

  /** Where `walk` goes in a well-formed tree. */
  lemma WalkPath(m: Memory, o: Uses, root: nat, vpn: nat)
    requires Typed(m, o) && DownRoot(m, o) && DownMid(m, o) && root in o && o[root].Root? && vpn < MAXVPN
    ensures MidPage(m, root, vpn) != 0 ==> MidPage(m, root, vpn) in o && o[MidPage(m, root, vpn)] == Mid(root, I2(vpn))
    ensures LowPage(m, root, vpn) != 0 ==>
              MidPage(m, root, vpn) != 0 && LowPage(m, root, vpn) in o
                  && o[LowPage(m, root, vpn)] == Low(root, I2(vpn), I1(vpn))
  {
    VpnParts(vpn);
    var e := Entry(m, root, I2(vpn));
    if V(e) {
      assert o[Pa(e)] == Mid(root, I2(vpn));
      var e1 := Entry(m, Pa(e), I1(vpn));
    }
  }

  // ---------------------------------------------------------------- changes outside the tables

  ghost predicate IsTree(u: Use) {
    u.Root? || u.Mid? || u.Low?
  }

  /** Entries of table pages are the same. */
  ghost predicate SameTables(m: Memory, m': Memory, o: Uses) {
    forall p :: p in o && IsTree(o[p]) ==> p in m && p in m' && m'[p] == m[p]
  }

  lemma LookupSame(m: Memory, m': Memory, o: Uses, root: nat, vpn: nat)
    requires Typed(m, o) && DownRoot(m, o) && DownMid(m, o) && SameTables(m, m', o)
    requires root in o && o[root].Root? && vpn < MAXVPN
    ensures MidPage(m', root, vpn) == MidPage(m, root, vpn) && LowPage(m', root, vpn) == LowPage(m, root, vpn)
    ensures Lookup(m', root, vpn) == Lookup(m, root, vpn)
  {
    WalkPath(m, o, root, vpn);
  }

  /** No address space has changed. */
  ghost predicate SameMaps(m: Memory, m': Memory, o: Uses) {
    forall root, vpn ::
        root in o && o[root].Root? && 0 <= vpn < MAXVPN ==> Lookup(m', root, vpn) == Lookup(m, root, vpn)
  }

  lemma TablesSameMaps(m: Memory, m': Memory, o: Uses)
    requires Typed(m, o) && DownRoot(m, o) && DownMid(m, o) && SameTables(m, m', o)
    ensures SameMaps(m, m', o)
  {
    forall root, vpn | root in o && o[root].Root? && 0 <= vpn < MAXVPN
        ensures Lookup(m', root, vpn) == Lookup(m, root, vpn) {
      LookupSame(m, m', o, root, vpn);
    }
  }

  /** Table pages keep their entries, and table pages and user memory their use. */
  ghost predicate Kept(m: Memory, o: Uses, m': Memory, o': Uses) {
    && o'.Keys == o.Keys && SameTables(m, m', o)
    && (forall p :: p in o && (IsTree(o[p]) || o[p].Leaf? || IsTree(o'[p]) || o'[p].Leaf?) ==> o'[p] == o[p])
  }

  lemma KeptTrees(m: Memory, o: Uses, m': Memory, o': Uses)
    requires Trees(m, o) && Kept(m, o, m', o') && Typed(m', o')
    ensures Trees(m', o') && SameMaps(m, m', o)
  {
    TablesSameMaps(m, m', o);
    KeptDown(m, o, m', o');
    KeptLow(m, o, m', o');
    KeptUp(m, o, m', o');
  }

  lemma KeptDown(m: Memory, o: Uses, m': Memory, o': Uses)
    requires DownRoot(m, o) && DownMid(m, o) && Kept(m, o, m', o')
    ensures DownRoot(m', o') && DownMid(m', o')
  {
    assert forall p, i :: p in o && IsTree(o[p]) ==> Entry(m', p, i) == Entry(m, p, i);
  }

  lemma KeptLow(m: Memory, o: Uses, m': Memory, o': Uses)
    requires DownLow(m, o) && Kept(m, o, m', o')
    ensures DownLow(m', o')
  {
    forall x, j | x in o' && o'[x].Low? && 0 <= j < 512 && V(Entry(m', x, j))
        ensures GoodLeaf(o', o'[x], j, Entry(m', x, j)) {
      assert Entry(m', x, j) == Entry(m, x, j);
    }
  }

  lemma KeptUp(m: Memory, o: Uses, m': Memory, o': Uses)
    requires Typed(m, o) && DownRoot(m, o) && DownMid(m, o) && Up(m, o) && Kept(m, o, m', o') && SameMaps(m, m', o)
    ensures Up(m', o')
  {
    assert forall p, i :: p in o && IsTree(o[p]) ==> Entry(m', p, i) == Entry(m, p, i);
    forall p | p in o' && o'[p].Mid? ensures UpMid(m', o', p) {
      assert UpMid(m, o, p);
    }
    forall p | p in o' && o'[p].Low? ensures UpLow(m', o', p) {
      assert UpLow(m, o, p);
      var e := Entry(m, o[p].root, o[p].i2);
      assert o[Pa(e)].Mid?;
    }
    forall p | p in o' && o'[p].Leaf? ensures UpLeaf(m', o', p) {
      assert UpLeaf(m, o, p);
    }
  }

  /** A page that is no part of a tree changes its content or its use. */
  lemma Retyped(m: Memory, o: Uses, q: nat, page: Page, use: Use)
    requires Trees(m, o) && q in o && (o[q].Listed? || o[q].Kernel?) && (use.Listed? || use.Kernel?)
    requires (use.Listed? ==> page.Free?)
    ensures Trees(m[q := page], o[q := use]) && SameMaps(m, m[q := page], o)
  {
    KeptTrees(m, o, m[q := page], o[q := use]);
  }

  /** Writing user memory. */
  lemma LeafWrite(m: Memory, o: Uses, q: nat, bytes: seq<byte>)
    requires Trees(m, o) && q in o && o[q].Leaf? && |bytes| == PGSIZE
    ensures Trees(m[q := Data(bytes)], o) && SameMaps(m, m[q := Data(bytes)], o)
  {
    KeptTrees(m, o, m[q := Data(bytes)], o);
  }

  // ---------------------------------------------------------------- changes in the tables

  function SetEntry(m: Memory, p: nat, i: nat, e: nat): Memory
    requires p in m && m[p].Table? && i < |m[p].ptes|
  {
    var ptes: seq<nat> := m[p].ptes[i := e];
    m[p := Table(ptes)]
  }

  lemma EntryAfterSet(m: Memory, p: nat, i: nat, e: nat, q: nat, j: nat)
    requires p in m && m[p].Table? && i < |m[p].ptes|
    ensures Entry(SetEntry(m, p, i, e), q, j) == if q == p && j == i then e else Entry(m, q, j)
  {
  }

  /** Storing a level-0 entry changes the map of one virtual page of one address space. */
  lemma LookupAfterSet(m: Memory, o: Uses, p: nat, i: nat, e: nat, root: nat, vpn: nat)
    requires Typed(m, o) && DownRoot(m, o) && DownMid(m, o) && p in o && o[p].Low? && i < 512 && UpLow(m, o, p)
    requires root in o && o[root].Root? && vpn < MAXVPN && (V(e) || e == 0)
    ensures IsTable(m, p)
    ensures
      var m' := SetEntry(m, p, i, e);
      && LowPage(m', root, vpn) == LowPage(m, root, vpn) && MidPage(m', root, vpn) == MidPage(m, root, vpn)
      && Lookup(m', root, vpn) == if root == o[p].root && vpn == VpnOf(o[p].i2, o[p].i1, i) then e
            else Lookup(m, root, vpn)
  {
    var m' := SetEntry(m, p, i, e);
    VpnParts(vpn);
    VpnOfParts(o[p].i2, o[p].i1, i);
    WalkPath(m, o, root, vpn);
    EntryAfterSet(m, p, i, e, root, I2(vpn));
    EntryAfterSet(m, p, i, e, MidPage(m, root, vpn), I1(vpn));
    EntryAfterSet(m, p, i, e, LowPage(m, root, vpn), I0(vpn));
    var up := Entry(m, o[p].root, o[p].i2);
    assert o[Pa(up)] == Mid(o[p].root, o[p].i2);
  }

  /** Only the map of `vpn` in `root` has changed, to `e`. */
  ghost predicate MapSet(m: Memory, m': Memory, o: Uses, root: nat, vpn: nat, e: nat) {
    forall r, v :: r in o && o[r].Root? && 0 <= v < MAXVPN ==>
      Lookup(m', r, v) == if r == root && v == vpn then e else Lookup(m, r, v)
  }

  lemma SetLowMap(m: Memory, o: Uses, p: nat, i: nat, e: nat)
    requires Typed(m, o) && DownRoot(m, o) && DownMid(m, o) && p in o && o[p].Low? && i < 512 && UpLow(m, o, p)
    requires IsTable(m, p) && (V(e) || e == 0)
    ensures MapSet(m, SetEntry(m, p, i, e), o, o[p].root, VpnOf(o[p].i2, o[p].i1, i), e)
  {
    var m' := SetEntry(m, p, i, e);
    forall r, v | r in o && o[r].Root? && 0 <= v < MAXVPN
      ensures Lookup(m', r, v) == if r == o[p].root && v == VpnOf(o[p].i2, o[p].i1, i) then e else Lookup(m, r, v)
    {
      LookupAfterSet(m, o, p, i, e, r, v);
    }
  }

  /** The use of page `q` may change between kernel page and user memory of the virtual page of entry `i` of `p`;
      the entry gets the value `e`. */
  ghost predicate LowChange(m: Memory, o: Uses, o': Uses, p: nat, i: nat, e: nat, q: nat) {
    && p in o && o[p].Low? && i < 512 && IsTable(m, p) && o'.Keys == o.Keys && (V(e) || e == 0)
    && (forall x :: x in o && x != q ==> o'[x] == o[x])
    && var leaf := Leaf(o[p].root, VpnOf(o[p].i2, o[p].i1, i));
       && leaf.vpn < MAXVPN
       && (q in o ==> o[q].Kernel? || o[q] == leaf)
       && (q in o ==>
             o'[q].Kernel? || (o'[q] == leaf && V(e) && Pa(e) == q && q in m && m[q].Data? && |m[q].bytes| == PGSIZE))
       && (V(e) ==> GoodLeaf(o', o[p], i, e))
       && (forall x :: x in o && o[x] == leaf ==> x == q)
  }

  lemma SetLowTrees(m: Memory, o: Uses, o': Uses, p: nat, i: nat, e: nat, q: nat)
    requires Trees(m, o) && LowChange(m, o, o', p, i, e, q)
    ensures Trees(SetEntry(m, p, i, e), o')
    ensures MapSet(m, SetEntry(m, p, i, e), o, o[p].root, VpnOf(o[p].i2, o[p].i1, i), e)
  {
    hide Typed, DownRoot, DownMid, DownLow, Stored, MapSet, VpnOf;
    var m' := SetEntry(m, p, i, e);
    assert UpLow(m, o, p);
    SetLowMap(m, o, p, i, e);
    SetStores(m, p, i, e);
    SetLowDown(m, m', o, o', p, i, e, q);
    SetLowLeaf(m, m', o, o', p, i, e, q);
    SetLowUp(m, m', o, o', p, i, e, q);
  }

  /** Two level-0 table pages never serve the same part of an address space. */
  lemma LowUnique(m: Memory, o: Uses, p: nat, q: nat)
    requires Typed(m, o) && p in o && q in o && o[p].Low? && o[q] == o[p] && UpLow(m, o, p) && UpLow(m, o, q)
    ensures p == q
  {
  }

  /** `m'` is `m` with entry `i` of page `p` stored as `e`. */
  ghost predicate Stored(m: Memory, m': Memory, p: nat, i: nat, e: nat) {
    && IsTable(m, p) && i < 512 && IsTable(m', p) && m'.Keys == m.Keys
    && (forall x :: x in m && x != p ==> m'[x] == m[x])
    && (forall x, j {:trigger Entry(m', x, j)} {:trigger Entry(m, x, j)} ::
          Entry(m', x, j) == if x == p && j == i then e else Entry(m, x, j))
  }

  lemma SetStores(m: Memory, p: nat, i: nat, e: nat)
    requires IsTable(m, p) && i < 512
    ensures Stored(m, SetEntry(m, p, i, e), p, i, e)
  {
  }

  lemma SetLowDown(m: Memory, m': Memory, o: Uses, o': Uses, p: nat, i: nat, e: nat, q: nat)
    requires Typed(m, o) && DownRoot(m, o) && DownMid(m, o) && LowChange(m, o, o', p, i, e, q) && Stored(m, m', p, i, e)
    ensures Typed(m', o') && DownRoot(m', o') && DownMid(m', o')
  {
  }

  lemma SetLowLeaf(m: Memory, m': Memory, o: Uses, o': Uses, p: nat, i: nat, e: nat, q: nat)
    requires Typed(m, o) && DownLow(m, o) && Up(m, o) && LowChange(m, o, o', p, i, e, q) && Stored(m, m', p, i, e)
    ensures DownLow(m', o')
  {
    forall x, j | x in o' && o'[x].Low? && 0 <= j < 512 && V(Entry(m', x, j))
        ensures GoodLeaf(o', o'[x], j, Entry(m', x, j)) {
      if x == p && j == i {
      } else {
        assert GoodLeaf(o, o[x], j, Entry(m, x, j));
        if U(Entry(m, x, j)) && Pa(Entry(m, x, j)) == q {
          SetLowOther(m, o, p, i, x, j);
          assert false;
        }
      }
    }
  }

  /** Two level-0 entries stand for different virtual pages. */
  lemma SetLowOther(m: Memory, o: Uses, p: nat, i: nat, x: nat, j: nat)
    requires Typed(m, o) && Up(m, o) && p in o && x in o && o[p].Low? && o[x].Low? && i < 512 && j < 512
    requires !(x == p && j == i)
    ensures Leaf(o[p].root, VpnOf(o[p].i2, o[p].i1, i)) != Leaf(o[x].root, VpnOf(o[x].i2, o[x].i1, j))
  {
    assert UpLow(m, o, p) && UpLow(m, o, x);
    VpnOfParts(o[p].i2, o[p].i1, i);
    VpnOfParts(o[x].i2, o[x].i1, j);
    if o[p] == o[x] {
      LowUnique(m, o, p, x);
    }
  }

  lemma SetLowUp(m: Memory, m': Memory, o: Uses, o': Uses, p: nat, i: nat, e: nat, q: nat)
    requires Typed(m, o) && DownRoot(m, o) && Up(m, o) && LowChange(m, o, o', p, i, e, q) && Stored(m, m', p, i, e)
    requires MapSet(m, m', o, o[p].root, VpnOf(o[p].i2, o[p].i1, i), e)
    ensures Up(m', o')
  {
    forall x | x in o' && o'[x].Mid? ensures UpMid(m', o', x) {
      assert UpMid(m, o, x);
    }
    forall x | x in o' && o'[x].Low? ensures UpLow(m', o', x) {
      assert UpLow(m, o, x);
      assert o[Pa(Entry(m, o[x].root, o[x].i2))].Mid?;
    }
    SetLowUpLeaf(m, m', o, o', p, i, e, q);
  }

  lemma SetLowUpLeaf(m: Memory, m': Memory, o: Uses, o': Uses, p: nat, i: nat, e: nat, q: nat)
    requires Typed(m, o) && Up(m, o) && LowChange(m, o, o', p, i, e, q)
    requires MapSet(m, m', o, o[p].root, VpnOf(o[p].i2, o[p].i1, i), e)
    ensures forall x :: x in o' && o'[x].Leaf? ==> UpLeaf(m', o', x)
  {
    hide VpnOf;
    assert UpLow(m, o, p);
    forall x | x in o' && o'[x].Leaf? ensures UpLeaf(m', o', x) {
      if x != q {
        assert UpLeaf(m, o, x);
      }
    }
  }

  // ---------------------------------------------------------------- adding and removing levels

  /** A table page without a valid entry. */
  ghost predicate Blank(m: Memory, q: nat) {
    IsTable(m, q) && forall i :: 0 <= i < 512 ==> !V(Entry(m, q, i))
  }

  /** Page `q` enters, or leaves, the tree below entry `i` of `p`; all of its own entries are invalid. */
  ghost predicate Hooked(m: Memory, o: Uses, p: nat, i: nat, q: nat) {
    && p in o && q in o && p != q && (o[p].Root? || o[p].Mid?) && i < (if o[p].Root? then 256 else 512)
          && IsTable(m, p) && Blank(m, q)
  }

  /** The use of a table page below entry `i` of `p`. */
  ghost function Below(o: Uses, p: nat, i: nat): Use
    requires p in o && (o[p].Root? || o[p].Mid?)
  {
    if o[p].Root? then Mid(p, i) else Low(o[p].root, o[p].i2, i)
  }

  /** `walk` with `alloc`: an invalid entry gets a blank table page. No map changes. */
  lemma Hook(m: Memory, o: Uses, p: nat, i: nat, q: nat)
    requires Trees(m, o) && Hooked(m, o, p, i, q) && o[q].Kernel? && !V(Entry(m, p, i))
    ensures Trees(SetEntry(m, p, i, Pte(q, 1)), o[q := Below(o, p, i)])
    ensures SameMaps(m, SetEntry(m, p, i, Pte(q, 1)), o)
  {
    var m', o' := SetEntry(m, p, i, Pte(q, 1)), o[q := Below(o, p, i)];
    HookMaps(m, o, p, i, q);
    HookDown(m, o, p, i, q);
    HookUp(m, o, p, i, q);
  }

  lemma HookMaps(m: Memory, o: Uses, p: nat, i: nat, q: nat)
    requires Typed(m, o) && DownRoot(m, o) && DownMid(m, o) && Hooked(m, o, p, i, q) && o[q].Kernel?
    requires !V(Entry(m, p, i))
    ensures SameMaps(m, SetEntry(m, p, i, Pte(q, 1)), o)
  {
    var m' := SetEntry(m, p, i, Pte(q, 1));
    assert forall x, j :: Entry(m', x, j) == if x == p && j == i then Pte(q, 1) else Entry(m, x, j);
    forall r, v | r in o && o[r].Root? && 0 <= v < MAXVPN ensures Lookup(m', r, v) == Lookup(m, r, v) {
      VpnParts(v);
      WalkPath(m, o, r, v);
    }
  }

  lemma HookDown(m: Memory, o: Uses, p: nat, i: nat, q: nat)
    requires Typed(m, o) && DownRoot(m, o) && DownMid(m, o) && DownLow(m, o) && Hooked(m, o, p, i, q) && o[q].Kernel?
    requires !V(Entry(m, p, i))
    ensures
      var m', o' := SetEntry(m, p, i, Pte(q, 1)), o[q := Below(o, p, i)];
      Typed(m', o') && DownRoot(m', o') && DownMid(m', o') && DownLow(m', o')
  {
    var m', o' := SetEntry(m, p, i, Pte(q, 1)), o[q := Below(o, p, i)];
    assert forall x, j :: Entry(m', x, j) == if x == p && j == i then Pte(q, 1) else Entry(m, x, j);
    forall x, j | x in o' && o'[x].Low? && 0 <= j < 512 && V(Entry(m', x, j))
        ensures GoodLeaf(o', o'[x], j, Entry(m', x, j)) {
      assert GoodLeaf(o, o[x], j, Entry(m, x, j));
    }
  }

  lemma HookUp(m: Memory, o: Uses, p: nat, i: nat, q: nat)
    requires Typed(m, o) && DownRoot(m, o) && DownMid(m, o) && Up(m, o) && Hooked(m, o, p, i, q) && o[q].Kernel?
    requires !V(Entry(m, p, i))
    requires SameMaps(m, SetEntry(m, p, i, Pte(q, 1)), o)
    ensures Up(SetEntry(m, p, i, Pte(q, 1)), o[q := Below(o, p, i)])
  {
    var m', o' := SetEntry(m, p, i, Pte(q, 1)), o[q := Below(o, p, i)];
    assert forall x, j :: Entry(m', x, j) == if x == p && j == i then Pte(q, 1) else Entry(m, x, j);
    forall x | x in o' && o'[x].Mid? ensures UpMid(m', o', x) {
      assert x != q ==> UpMid(m, o, x);
    }
    assert o[p].Mid? ==> UpMid(m, o, p);
    forall x | x in o' && o'[x].Low? ensures UpLow(m', o', x) {
      if x != q {
        assert UpLow(m, o, x);
      }
    }
    forall x | x in o' && o'[x].Leaf? ensures UpLeaf(m', o', x) {
      assert UpLeaf(m, o, x);
    }
  }

  /** `freewalk`: a blank table page is cut off. No map changes. */
  lemma Unhook(m: Memory, o: Uses, p: nat, i: nat, q: nat)
    requires Trees(m, o) && Hooked(m, o, p, i, q) && o[q] == Below(o, p, i)
    ensures Trees(SetEntry(m, p, i, 0), o[q := Kernel])
    ensures SameMaps(m, SetEntry(m, p, i, 0), o)
  {
    UnhookMaps(m, o, p, i, q);
    var m' := SetEntry(m, p, i, 0);
    SetStores(m, p, i, 0);
    UnhookDown(m, m', o, p, i, q);
    UnhookLow(m, m', o, p, i, q);
    UnhookUp(m, o, p, i, q);
  }

  lemma UnhookMaps(m: Memory, o: Uses, p: nat, i: nat, q: nat)
    requires Typed(m, o) && DownRoot(m, o) && DownMid(m, o) && Hooked(m, o, p, i, q) && o[q] == Below(o, p, i)
    requires Up(m, o)
    ensures SameMaps(m, SetEntry(m, p, i, 0), o) && Entry(m, p, i) == Pte(q, 1)
  {
    var m' := SetEntry(m, p, i, 0);
    assert forall x, j :: Entry(m', x, j) == if x == p && j == i then 0 else Entry(m, x, j);
    UnhookEntry(m, o, p, i, q);
    forall r, v | r in o && o[r].Root? && 0 <= v < MAXVPN ensures Lookup(m', r, v) == Lookup(m, r, v) {
      VpnParts(v);
      WalkPath(m, o, r, v);
    }
  }

  lemma UnhookEntry(m: Memory, o: Uses, p: nat, i: nat, q: nat)
    requires Typed(m, o) && DownRoot(m, o) && Hooked(m, o, p, i, q) && o[q] == Below(o, p, i) && Up(m, o)
    ensures Entry(m, p, i) == Pte(q, 1)
  {
    if o[p].Root? {
      assert UpMid(m, o, q);
    } else {
      assert UpMid(m, o, p) && UpLow(m, o, q);
    }
  }

  lemma UnhookDown(m: Memory, m': Memory, o: Uses, p: nat, i: nat, q: nat)
    requires Typed(m, o) && DownRoot(m, o) && DownMid(m, o) && Up(m, o) && Hooked(m, o, p, i, q)
    requires o[q] == Below(o, p, i) && Stored(m, m', p, i, 0)
    ensures Typed(m', o[q := Kernel]) && DownRoot(m', o[q := Kernel]) && DownMid(m', o[q := Kernel])
  {
    var o' := o[q := Kernel];
    UnhookEntry(m, o, p, i, q);
    forall x, j | x in o' && o'[x].Mid? && 0 <= j < 512 && V(Entry(m', x, j))
      ensures Flags(Entry(m', x, j)) == 1 && Pa(Entry(m', x, j)) in o'
      ensures o'[Pa(Entry(m', x, j))] == Low(o'[x].root, o'[x].i2, j)
    {
      assert UpMid(m, o, x);
      assert o[p].Mid? ==> UpMid(m, o, p);
    }
  }

  lemma UnhookLow(m: Memory, m': Memory, o: Uses, p: nat, i: nat, q: nat)
    requires Typed(m, o) && DownLow(m, o) && Hooked(m, o, p, i, q) && o[q] == Below(o, p, i) && Stored(m, m', p, i, 0)
    ensures DownLow(m', o[q := Kernel])
  {
    var o' := o[q := Kernel];
    forall x, j | x in o' && o'[x].Low? && 0 <= j < 512 && V(Entry(m', x, j))
        ensures GoodLeaf(o', o'[x], j, Entry(m', x, j)) {
      assert GoodLeaf(o, o[x], j, Entry(m, x, j));
    }
  }

  lemma UnhookUp(m: Memory, o: Uses, p: nat, i: nat, q: nat)
    requires Typed(m, o) && DownRoot(m, o) && DownMid(m, o) && Up(m, o) && Hooked(m, o, p, i, q)
    requires o[q] == Below(o, p, i)
    requires SameMaps(m, SetEntry(m, p, i, 0), o)
    ensures Up(SetEntry(m, p, i, 0), o[q := Kernel])
  {
    var m', o' := SetEntry(m, p, i, 0), o[q := Kernel];
    assert forall x, j :: Entry(m', x, j) == if x == p && j == i then 0 else Entry(m, x, j);
    UnhookEntry(m, o, p, i, q);
    forall x | x in o' && o'[x].Mid? ensures UpMid(m', o', x) {
      assert UpMid(m, o, x);
    }
    forall x | x in o' && o'[x].Low? ensures UpLow(m', o', x) {
      assert UpLow(m, o, x);
    }
    forall x | x in o' && o'[x].Leaf? ensures UpLeaf(m', o', x) {
      assert UpLeaf(m, o, x);
    }
  }

  // ---------------------------------------------------------------- roots and user memory

  /** A page without a valid entry becomes the root of an empty address space. */
  lemma NewRoot(m: Memory, o: Uses, q: nat)
    requires Trees(m, o) && q in o && o[q].Kernel? && Blank(m, q)
    ensures Trees(m, o[q := Root])
    ensures forall v :: 0 <= v < MAXVPN ==> Lookup(m, q, v) == 0
  {
    var o' := o[q := Root];
    forall v | 0 <= v < MAXVPN ensures Lookup(m, q, v) == 0 {
      VpnParts(v);
    }
    forall x | x in o' && o'[x].Mid? ensures UpMid(m, o', x) {
      assert UpMid(m, o, x);
    }
    forall x | x in o' && o'[x].Low? ensures UpLow(m, o', x) {
      assert UpLow(m, o, x);
    }
    forall x | x in o' && o'[x].Leaf? ensures UpLeaf(m, o', x) {
      assert UpLeaf(m, o, x);
    }
  }

  /** A root without a valid entry has nothing below it, so it can go. */
  lemma OldRoot(m: Memory, o: Uses, q: nat)
    requires Trees(m, o) && q in o && o[q].Root? && Blank(m, q)
    ensures Trees(m, o[q := Kernel])
  {
    var o' := o[q := Kernel];
    forall x | x in o' && o'[x].Mid? ensures UpMid(m, o', x) {
      assert UpMid(m, o, x);
    }
    forall x | x in o' && o'[x].Low? ensures UpLow(m, o', x) {
      assert UpLow(m, o, x);
    }
    forall x | x in o' && o'[x].Leaf? ensures UpLeaf(m, o', x) {
      assert UpLeaf(m, o, x);
      VpnParts(o[x].vpn);
    }
  }

  /** What the entries of a level-0 table page are in the map. */
  lemma LowEntry(m: Memory, o: Uses, p: nat, i: nat)
    requires Typed(m, o) && p in o && o[p].Low? && UpLow(m, o, p) && i < 512
    ensures VpnOf(o[p].i2, o[p].i1, i) < MAXVPN
    ensures LowPage(m, o[p].root, VpnOf(o[p].i2, o[p].i1, i)) == p
    ensures Lookup(m, o[p].root, VpnOf(o[p].i2, o[p].i1, i)) == if V(Entry(m, p, i)) then Entry(m, p, i) else 0
  {
    VpnOfParts(o[p].i2, o[p].i1, i);
  }
}
