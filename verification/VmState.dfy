/** The state of the page allocator and of all page tables, and what each operation may change in it. */
module VmState {
  import opened Sv39

  // ---------------------------------------------------------------- the free list

  /** Address `x` is the head of the last `n` pages of the list. */
  ghost predicate Heads(o: Uses, x: nat, n: nat) {
    if n == 0 then x == 0 else x in o && o[x] == Listed(n - 1)
  }

  /** The pages in use as `Listed`, linked through their own first word, form one list of `n` pages from `head`. */
  ghost predicate FreeList(m: Memory, o: Uses, head: nat, n: nat) {
    && m.Keys == o.Keys && Heads(o, head, n)
    && (forall p :: p in o && o[p].Listed? ==> o[p].rank < n && m[p].Free? && Heads(o, m[p].next, o[p].rank))
    && (forall p, q :: p in o && q in o && o[p].Listed? && o[q] == o[p] ==> p == q)
  }

  /** The first `n` pages found by following the links. */
  ghost function Links(m: Memory, head: nat, n: nat): seq<nat>
    decreases n
  {
    if n == 0 || head !in m || !m[head].Free? then [] else [head] + Links(m, m[head].next, n - 1)
  }

  lemma HeadNext(m: Memory, o: Uses, head: nat, n: nat, all: nat, x: nat)
    requires FreeList(m, o, x, all) && Heads(o, head, n) && 0 < n
    ensures head in m && head in o && m[head].Free? && o[head] == Listed(n - 1) && Heads(o, m[head].next, n - 1)
  {
  }

  lemma LinksNext(m: Memory, head: nat, n: nat)
    requires 0 < n && head in m && m[head].Free?
    ensures Links(m, head, n) == [head] + Links(m, m[head].next, n - 1) && Links(m, m[head].next, 0) == []
  {
  }

  lemma {:induction false} LinkAt(m: Memory, o: Uses, head: nat, n: nat, all: nat, x: nat, k: nat)
    requires FreeList(m, o, x, all) && Heads(o, head, n) && k < n <= all
    ensures |Links(m, head, n)| == n && Links(m, head, n)[k] in o && o[Links(m, head, n)[k]] == Listed(n - 1 - k)
    decreases n
  {
    hide FreeList, Heads, Links;
    HeadNext(m, o, head, n, all, x);
    LinksNext(m, head, n);
    var rest := Links(m, m[head].next, n - 1);
    if n > 1 {
      LinkAt(m, o, m[head].next, n - 1, all, x, if k > 0 then k - 1 else 0);
    }
    if k > 0 {
      assert ([head] + rest)[k] == rest[k - 1];
    }
  }

  /** Following the links visits every free page once, and nothing else. */
  lemma LinksExact(m: Memory, o: Uses, head: nat, n: nat, p: nat)
    requires FreeList(m, o, head, n) && p in o
    ensures o[p].Listed? <==> p in Links(m, head, n)
    ensures |Links(m, head, n)| == n && forall j, k :: 0 <= j < k < n ==> Links(m, head, n)[j] != Links(m, head, n)[k]
  {
    var s := Links(m, head, n);
    if n > 0 {
      LinkAt(m, o, head, n, n, head, 0);
    }
    forall k | 0 <= k < n ensures s[k] in o && o[s[k]] == Listed(n - 1 - k) {
      LinkAt(m, o, head, n, n, head, k);
    }
    forall j, k | 0 <= j < k < n ensures s[j] != s[k] {
      assert o[s[j]].rank != o[s[k]].rank;
    }
    if o[p].Listed? {
      assert s[n - 1 - o[p].rank] == p;
    }
  }

  lemma ListPop(m: Memory, o: Uses, head: nat, n: nat, page: Page)
    requires FreeList(m, o, head, n) && 0 !in o && head != 0
    ensures n > 0 && head in o && o[head].Listed? && m[head].Free?
    ensures FreeList(m[head := page], o[head := Kernel], m[head].next, n - 1)
  {
  }

  lemma ListPush(m: Memory, o: Uses, head: nat, n: nat, pa: nat)
    requires FreeList(m, o, head, n) && 0 !in o && pa in o && !o[pa].Listed?
    ensures FreeList(m[pa := Free(head)], o[pa := Listed(n)], pa, n + 1)
  {
  }

  /** Changes of pages that are not on the list, to uses that are not either. */
  lemma ListSame(m: Memory, o: Uses, m': Memory, o': Uses, head: nat, n: nat)
    requires FreeList(m, o, head, n) && m'.Keys == o'.Keys == o.Keys
    requires forall p :: p in o && (o[p].Listed? || o'[p].Listed?) ==> o'[p] == o[p] && m'[p] == m[p]
    ensures FreeList(m', o', head, n)
  {
  }

  // ---------------------------------------------------------------- frames

  /** Page tables may have grown, nothing else has changed: no map, no page that is not a table or was not free. */
  ghost predicate TablesGrew(m: Memory, o: Uses, m': Memory, o': Uses) {
    && o'.Keys == o.Keys && m.Keys == o.Keys && m'.Keys == o.Keys
    && (forall p :: p in o && !o[p].Listed? ==> o'[p] == o[p] && (!IsTree(o[p]) ==> m'[p] == m[p]))
    && (forall p :: p in o && o[p].Listed? ==> o'[p].Listed? || o'[p].Mid? || o'[p].Low?)
    && SameMaps(m, m', o)
  }

  lemma TablesGrewTrans(m: Memory, o: Uses, m1: Memory, o1: Uses, m2: Memory, o2: Uses)
    requires TablesGrew(m, o, m1, o1) && TablesGrew(m1, o1, m2, o2)
    ensures TablesGrew(m, o, m2, o2)
  {
    forall r, v | r in o && o[r].Root? && 0 <= v < MAXVPN ensures Lookup(m2, r, v) == Lookup(m, r, v) {
      assert o1[r].Root?;
    }
  }

  // ---------------------------------------------------------------- one page taken from the list

  function Fill<T>(n: nat, x: T): (r: seq<T>)
    ensures |r| == n && forall i :: 0 <= i < n ==> r[i] == x
  {
    if n == 0 then [] else Fill(n - 1, x) + [x]
  }

  /** Page `q` has left the free list and is the kernel's. */
  ghost predicate Taken(m: Memory, o: Uses, m': Memory, o': Uses, q: nat) {
    && q in o && q in m && o[q].Listed? && q in m' && q in o' && o'[q].Kernel?
    && m' == m[q := m'[q]] && o' == o[q := o'[q]]
  }

  lemma TakenTrees(m: Memory, o: Uses, m': Memory, o': Uses, q: nat)
    requires Trees(m, o) && Taken(m, o, m', o', q)
    ensures Trees(m', o') && SameMaps(m, m', o)
  {
    Retyped(m, o, q, m'[q], Kernel);
  }

  /** `walk` puts a cleared page below entry `i` of table page `p`. */
  lemma Deepen(m: Memory, o: Uses, m': Memory, o': Uses, p: nat, i: nat, q: nat)
    requires Trees(m, o) && Taken(m, o, m', o', q) && m'[q] == Table(Fill(512, 0))
    requires p in o && (o[p].Root? || o[p].Mid?) && i < (if o[p].Root? then 256 else 512) && !V(Entry(m, p, i))
    ensures IsTable(m', p)
    ensures Trees(SetEntry(m', p, i, Pte(q, 1)), o'[q := Below(o', p, i)])
    ensures TablesGrew(m, o, SetEntry(m', p, i, Pte(q, 1)), o'[q := Below(o', p, i)])
  {
    hide DownRoot, DownMid, DownLow, Up;
    TakenTrees(m, o, m', o', q);
    assert Entry(m', p, i) == Entry(m, p, i);
    assert forall j :: 0 <= j < 512 ==> Entry(m', q, j) == 0;
    Hook(m', o', p, i, q);
    DeepenMaps(m, m', SetEntry(m', p, i, Pte(q, 1)), o, o');
  }

  lemma DeepenMaps(m: Memory, m': Memory, m'': Memory, o: Uses, o': Uses)
    requires SameMaps(m, m', o) && SameMaps(m', m'', o') && forall r :: r in o && o[r].Root? ==> r in o' && o'[r].Root?
    ensures SameMaps(m, m'', o)
  {
    hide Lookup;
  }

  /** A Taken list. */
  lemma TakenList(m: Memory, o: Uses, m': Memory, o': Uses, head: nat, n: nat)
    requires FreeList(m, o, head, n) && 0 !in o && head != 0 && Taken(m, o, m', o', head)
    ensures n > 0 && m[head].Free? && FreeList(m', o', m[head].next, n - 1)
  {
    ListPop(m, o, head, n, m'[head]);
  }

  lemma TablesGrewSelf(m: Memory, o: Uses)
    requires Trees(m, o)
    ensures TablesGrew(m, o, m, o)
  {
  }

  lemma DownEntry(m: Memory, o: Uses, p: nat, i: nat)
    requires Trees(m, o) && p in o && (o[p].Root? || o[p].Mid?) && i < 512
    ensures IsTable(m, p) && 0 !in o
    ensures V(Entry(m, p, i)) ==> Pa(Entry(m, p, i)) in o && o[Pa(Entry(m, p, i))] == Below(o, p, i)
  {
  }

  /** PX(level, va): the index of the page-table entry for `va` at a level. */
  function PX(level: nat, va: nat): (i: nat)
    requires level < 3
    ensures i < 512
  {
    var page := va / PGSIZE;
    (if level == 0 then page else if level == 1 then page / 512 else page / 0x4_0000) % 512
  }

  lemma PXParts(va: nat)
    requires va < MAXVA
    ensures va / PGSIZE < MAXVPN
    ensures PX(2, va) == I2(va / PGSIZE) < 256 && PX(1, va) == I1(va / PGSIZE) && PX(0, va) == I0(va / PGSIZE)
  {
    VpnParts(va / PGSIZE);
  }

  /** A level-0 table page is where `walk` ends. */
  lemma LowFound(m: Memory, o: Uses, p: nat, vpn: nat)
    requires Trees(m, o) && p in o && o[p].Low? && o[p].i2 == I2(vpn) && o[p].i1 == I1(vpn) && vpn < MAXVPN
    ensures LowPage(m, o[p].root, vpn) == p && IsTable(m, p) && I0(vpn) < 512
    ensures V(Lookup(m, o[p].root, vpn)) == V(Entry(m, p, I0(vpn)))
    ensures Lookup(m, o[p].root, vpn) == if V(Entry(m, p, I0(vpn))) then Entry(m, p, I0(vpn)) else 0
  {
    VpnParts(vpn);
    assert UpLow(m, o, p);
    LowEntry(m, o, p, I0(vpn));
  }

  lemma DeepenList(m: Memory, o: Uses, m': Memory, o': Uses, p: nat, i: nat, q: nat, head: nat, n: nat)
    requires FreeList(m, o, head, n) && q in o && o[q].Kernel? && p in o && (o[p].Root? || o[p].Mid?)
    requires o' == o[q := Below(o, p, i)]
    requires q in m' && p in m' && m' == m[q := m'[q]][p := m'[p]]
    ensures FreeList(m', o', head, n)
  {
    ListSame(m, o, m', o', head, n);
  }

  // ---------------------------------------------------------------- freeing a region

  ghost predicate InRegion(p: nat, lo: nat, hi: nat) {
    lo <= p && p + PGSIZE <= hi && p % PGSIZE == 0
  }

  ghost predicate OurRegion(o: Uses, lo: nat, hi: nat) {
    forall p :: InRegion(p, lo, hi) ==> p in o && o[p].Kernel?
  }

  /** The whole pages of the region that are below `p` are free, nothing else has changed. */
  ghost predicate RegionFreed(m: Memory, o: Uses, m': Memory, o': Uses, lo: nat, p: nat, hi: nat) {
    && m.Keys == o.Keys && m'.Keys == o.Keys && o'.Keys == o.Keys
    && (forall x :: x in o ==> if InRegion(x, lo, hi) && x < p then o'[x].Listed? else o'[x] == o[x] && m'[x] == m[x])
  }

  lemma RegionNone(m: Memory, o: Uses, lo: nat, p: nat, hi: nat)
    requires m.Keys == o.Keys && p == (lo + PGSIZE - 1) / PGSIZE * PGSIZE
    ensures RegionFreed(m, o, m, o, lo, p, hi)
  {
    forall x | x in o && InRegion(x, lo, hi) ensures x >= p {
      RoundedUp(lo, x);
    }
  }

  lemma RoundedUp(lo: nat, x: nat)
    requires x % PGSIZE == 0 && x >= lo
    ensures x >= (lo + PGSIZE - 1) / PGSIZE * PGSIZE
  {
    var q := x / PGSIZE;
    assert x == q * PGSIZE;
    assert (lo + PGSIZE - 1) / PGSIZE <= q;
  }

  lemma RegionNext(m: Memory, o: Uses, m1: Memory, o1: Uses, lo: nat, p: nat, hi: nat, head: nat, n: nat)
    requires RegionFreed(m, o, m1, o1, lo, p, hi) && InRegion(p, lo, hi) && OurRegion(o, lo, hi)
    ensures p in o1 && o1[p].Kernel?
    ensures RegionFreed(m, o, m1[p := Free(head)], o1[p := Listed(n)], lo, p + PGSIZE, hi)
  {
    assert o[p].Kernel?;
    forall x | x in o && InRegion(x, lo, hi) && x < p + PGSIZE && x != p ensures x < p {
    }
  }

  lemma RegionAll(m: Memory, o: Uses, m1: Memory, o1: Uses, lo: nat, p: nat, hi: nat)
    requires RegionFreed(m, o, m1, o1, lo, p, hi) && p + PGSIZE > hi
    ensures RegionFreed(m, o, m1, o1, lo, hi, hi)
  {
  }
}
