/** The page allocator and the operations on page tables (kernel/kalloc.c, kernel/vm.c). Physical memory is a map
    from page address to page; a call that the source turns into a panic is excluded by `requires`. */
module VmOps {
  import opened Words
  import opened Sv39
  import opened VmState
  import opened VmCost
  import opened VmRange
  import opened VmUnmap
  import opened VmGrow
  import opened VmFree
  import opened VmCopy

  class Vm {
    /** The allocator serves the pages from `end` up to `phystop`. */
    const end: nat
    const phystop: nat
    var mem: Memory
    var freelist: nat
    ghost var uses: Uses
    ghost var nfree: nat

    /** Every page has one use: free, kernel, table page at one place of one tree, or user memory at one virtual
        page. */
    ghost predicate Valid()
      reads this
    {
      Trees(mem, uses) && FreeList(mem, uses, freelist, nfree) && InRange(uses)
    }

    ghost predicate InRange(o: Uses) {
      forall p :: p in o ==> end <= p < phystop
    }

    /** The machine at boot: all whole pages between `end` and `phystop` belong to the kernel, and freerange frees
        them. */
    constructor (end: nat, phystop: nat)
      requires end > 0
      ensures this.end == end && this.phystop == phystop && Valid() && forall p :: p in uses ==> uses[p].Listed?
      ensures forall p: nat :: p in uses <==> end <= p && p + PGSIZE <= phystop && p % PGSIZE == 0
    {
      this.end := end;
      this.phystop := phystop;
      mem := map p: nat | end <= p < phystop && p + PGSIZE <= phystop && p % PGSIZE == 0 :: Data([]);
      uses := map p: nat | end <= p < phystop && p + PGSIZE <= phystop && p % PGSIZE == 0 :: Kernel;
      freelist, nfree := 0, 0;
      new;
      Freerange(end, phystop);
    }

    method Freerange(lo: nat, hi: nat)
      requires Valid() && end <= lo && hi <= phystop && OurRegion(uses, lo, hi)
      modifies this
      ensures Valid() && RegionFreed(old(mem), old(uses), mem, uses, lo, hi, hi)
    {
      hide Trees, FreeList, SameMaps, OurRegion, RegionFreed;
      ghost var m, o := mem, uses;
      Aligned(m, o);
      var p := (lo + PGSIZE - 1) / PGSIZE * PGSIZE;
      RegionNone(m, o, lo, p, hi);
      while p + PGSIZE <= hi
        invariant lo <= p && p % PGSIZE == 0 && Valid() && RegionFreed(m, o, mem, uses, lo, p, hi)
        decreases hi - p
      {
        ghost var m1, o1 := mem, uses;
        RegionNext(m, o, m1, o1, lo, p, hi, freelist, nfree);
        Retyped(m1, o1, p, Free(freelist), Listed(nfree));
        Aligned(m1, o1);
        Kfree(p);
        p := p + PGSIZE;
      }
      RegionAll(m, o, mem, uses, lo, p, hi);
    }

    method Kfree(pa: nat)
      requires pa % PGSIZE == 0 && end <= pa < phystop
      requires FreeList(mem, uses, freelist, nfree) && 0 !in uses && pa in uses && !uses[pa].Listed?
      modifies this
      ensures mem == old(mem)[pa := Free(old(freelist))] && uses == old(uses)[pa := Listed(old(nfree))]
      ensures FreeList(mem, uses, freelist, nfree) && freelist == pa && nfree == old(nfree) + 1
    {
      ListPush(mem, uses, freelist, nfree, pa);
      mem := mem[pa := Free(freelist)];
      freelist := pa;
      uses, nfree := uses[pa := Listed(nfree)], nfree + 1;
    }

    method Kalloc() returns (pa: nat)
      requires Valid()
      modifies this
      ensures Valid()
      ensures pa == 0 <==> old(nfree) == 0
      ensures pa == 0 ==> mem == old(mem) && uses == old(uses) && freelist == old(freelist) && nfree == old(nfree)
      ensures pa != 0 ==>
                nfree == old(nfree) - 1 && Taken(old(mem), old(uses), mem, uses, pa) && mem[pa] == Data(Fill(PGSIZE, 5))
    {
      hide DownRoot, DownMid, DownLow, Up;
      pa := freelist;
      if pa != 0 {
        ghost var m, o := mem, uses;
        freelist := mem[pa].next;
        mem := mem[pa := Data(Fill(PGSIZE, 5))];
        uses, nfree := uses[pa := Kernel], nfree - 1;
        TakenList(m, o, mem, uses, pa, nfree + 1);
        TakenTrees(m, o, mem, uses, pa);
      }
    }

    /** One level of `walk`: the page that entry `i` of table page `pt` leads to. */
    method Descend(pt: nat, i: nat, alloc: bool) returns (q: nat)
      requires Valid() && pt in uses && (uses[pt].Root? || uses[pt].Mid?) && i < (if uses[pt].Root? then 256 else 512)
      modifies this
      ensures Valid() && TablesGrew(old(mem), old(uses), mem, uses) && nfree <= old(nfree)
      ensures q != 0 ==> pt in uses && uses[pt] == old(uses)[pt] && q in uses && uses[q] == Below(uses, pt, i)
      ensures q == 0 <==> !V(Entry(old(mem), pt, i)) && (!alloc || old(nfree) == 0)
      ensures q != 0 && !alloc ==> V(Entry(mem, pt, i)) && q == Pa(Entry(mem, pt, i))
      ensures !alloc || q == 0 ==>
                mem == old(mem) && uses == old(uses) && freelist == old(freelist) && nfree == old(nfree)
      ensures V(Entry(old(mem), pt, i)) <==> Has(old(uses), Below(old(uses), pt, i))
      ensures alloc && q != 0 ==>
                && Gained(old(uses), uses, Below(old(uses), pt, i))
                && nfree + (if Has(old(uses), Below(old(uses), pt, i)) then 0 else 1) == old(nfree)
    {
      hide Trees, TablesGrew, FreeList, Entry, Pa, V, Has, Gained, SameInner;
      TablesGrewSelf(mem, uses);
      DownEntry(mem, uses, pt, i);
      EntryHas(mem, uses, pt, i);
      GainedSelf(uses, Below(uses, pt, i));
      var e := Entry(mem, pt, i);
      if V(e) {
        return Pa(e);
      }
      if !alloc {
        return 0;
      }
      ghost var m, o := mem, uses;
      q := Kalloc();
      if q == 0 {
        return;
      }
      TakenGained(m, o, mem, uses, q, Below(o, pt, i));
      ghost var m1 := mem;
      mem := mem[q := Table(Fill(512, 0))];
      ghost var m', o' := mem, uses;
      Deepen(m, o, m', o', pt, i, q);
      mem := SetEntry(mem, pt, i, Pte(q, 1));
      uses := uses[q := Below(uses, pt, i)];
      DeepenList(m1, o', mem, uses, pt, i, q, freelist, nfree);
    }

    /** walk: the page-table page and index of the level-0 entry for `va`, or page 0. */
    method Walk(root: nat, va: nat, alloc: bool) returns (p: nat, i: nat)
      requires Valid() && root in uses && uses[root].Root? && va < MAXVA
      modifies this
      ensures Valid() && TablesGrew(old(mem), old(uses), mem, uses) && nfree <= old(nfree)
      ensures p != 0 ==> p in uses && uses[p] == Low(root, I2(va / PGSIZE), I1(va / PGSIZE)) && i == I0(va / PGSIZE)
      ensures !alloc ==> mem == old(mem) && uses == old(uses) && freelist == old(freelist) && nfree == old(nfree)
      ensures !alloc ==> p == LowPage(mem, root, va / PGSIZE)
      ensures alloc && p == 0 ==> nfree == 0 && old(nfree) < Lacking(old(uses), root, va / PGSIZE)
      ensures alloc && p != 0 ==>
                && nfree + Lacking(old(uses), root, va / PGSIZE) == old(nfree)
                && GainedFor(old(uses), uses, root, va / PGSIZE, 1)
    {
      hide Trees, TablesGrew, FreeList, Gained, GainedFor, Has, Lacking, Walked;
      PXParts(va);
      ghost var vpn := va / PGSIZE;
      TablesGrewSelf(mem, uses);
      DownEntry(mem, uses, root, 0);
      WalkedStart(uses, nfree, root, vpn);
      p := root;
      var level := 2;
      while level > 0
        invariant 0 <= level <= 2
        invariant Valid() && TablesGrew(old(mem), old(uses), mem, uses) && nfree <= old(nfree)
        invariant p in uses && p != 0
        invariant level == 2 ==> p == root && uses[p].Root?
        invariant level == 1 ==> uses[p] == Mid(root, I2(vpn))
        invariant level == 0 ==> uses[p] == Low(root, I2(vpn), I1(vpn))
        invariant !alloc ==> mem == old(mem) && uses == old(uses) && freelist == old(freelist) && nfree == old(nfree)
        invariant !alloc && level == 1 ==> p == MidPage(mem, root, vpn)
        invariant !alloc && level == 0 ==> p == LowPage(mem, root, vpn)
        invariant alloc ==> Walked(old(uses), old(nfree), uses, nfree, root, vpn, level)
      {
        ghost var m, o, n := mem, uses, nfree;
        p := Descend(p, PX(level, va), alloc);
        TablesGrewTrans(old(mem), old(uses), m, o, mem, uses);
        if p == 0 {
          if alloc {
            WalkedStuck(old(uses), old(nfree), o, n, root, vpn, level);
          }
          return 0, 0;
        }
        if alloc {
          WalkedNext(old(uses), old(nfree), o, n, uses, nfree, root, vpn, level);
        }
        level := level - 1;
      }
      i := PX(0, va);
      if alloc {
        WalkedEnd(old(uses), old(nfree), uses, nfree, root, vpn);
      }
    }

    /** mappages: `done` pages have been mapped, all of them on success. */
    method Mappages(root: nat, va: nat, size: nat, pa: nat, perm: nat, ghost own: bool)
        returns (r: int, ghost done: nat)
      requires Valid() && va % PGSIZE == 0 && size % PGSIZE == 0 && size > 0 && va + size <= MAXVA
      requires CanMap(mem, uses, root, va / PGSIZE, size / PGSIZE, pa, WithV(perm), own)
      modifies this
      ensures Valid() && nfree <= old(nfree)
      ensures WithV(perm) < 1024
      ensures Mapped(old(mem), old(uses), mem, uses, root, va / PGSIZE, done, pa, WithV(perm), own)
      ensures if done == size / PGSIZE then r == 0 else r == -1 && done < size / PGSIZE && nfree == 0
      ensures r == 0 <==> old(nfree) >= Tables(old(uses), root, va / PGSIZE, size / PGSIZE)
      ensures r == 0 ==>
                && nfree + Tables(old(uses), root, va / PGSIZE, size / PGSIZE) == old(nfree)
                && GainedFor(old(uses), uses, root, va / PGSIZE, size / PGSIZE)
    {
      hide Trees, FreeList, Mapped, TablesGrew, Lookup, I2, I1, I0, Entry, V, IsLeaf, U, SetEntry, Pte, Tables, Spent,
          GainedFor, Lacking;
      ghost var m, o, vpn, n := mem, uses, va / PGSIZE, size / PGSIZE;
      SpentNone(o, nfree, root, vpn);
      MappedNone(m, o, root, vpn, pa, WithV(perm), own);
      done := 0;
      var a, last, pg := va, va + size - PGSIZE, pa;
      while true
        invariant va <= a <= last && a == va + done * PGSIZE && pg == pa + done * PGSIZE && done < n
        invariant Valid() && nfree <= old(nfree) && Mapped(m, o, mem, uses, root, vpn, done, pa, WithV(perm), own)
        invariant Spent(o, old(nfree), uses, nfree, root, vpn, done, 0)
        decreases last - a
      {
        ghost var m1, o1, n1 := mem, uses, nfree;
        RootStays(m, o, m1, o1, root, vpn, done, pa, WithV(perm), own);
        var p, i := Walk(root, a, true);
        MappedGrew(m, o, m1, o1, mem, uses, root, vpn, done, pa, WithV(perm), own);
        assert a / PGSIZE == vpn + done;
        if p == 0 {
          SpentStuck(o, old(nfree), o1, n1, root, vpn, done, n, 0, 0);
          return -1, done;
        }
        MapStep(m, o, mem, uses, p, root, vpn, done, n, pa, WithV(perm), own, freelist, nfree);
        mem := SetEntry(mem, p, i, Pte(pg, WithV(perm)));
        MapSpent(o, old(nfree), o1, n1, uses, nfree, root, vpn, done, if own then pg else 0);
        uses := Owning(uses, if own then pg else 0, Leaf(root, vpn + done));
        done := done + 1;
        if a == last {
          break;
        }
        a := a + PGSIZE;
        pg := pg + PGSIZE;
      }
      SpentEnd(o, old(nfree), uses, nfree, root, vpn, n, 0);
      r := 0;
    }

    /** uvmunmap. */
    method Uvmunmap(root: nat, va: nat, npages: nat, doFree: bool)
      requires Valid() && va % PGSIZE == 0 && va + npages * PGSIZE <= MAXVA
      requires CanUnmap(mem, uses, root, va / PGSIZE, npages, doFree)
      modifies this
      ensures Valid() && Unmapped(old(mem), old(uses), mem, uses, root, va / PGSIZE, npages, doFree)
      ensures nfree == old(nfree) + if doFree then npages else 0
    {
      hide Trees, FreeList, Unmapped, CanUnmap, TablesGrew, Lookup, I2, I1, I0, Entry, V, IsLeaf, SetEntry, Backing,
          LowPage;
      ghost var m, o, vpn := mem, uses, va / PGSIZE;
      UnmappedNone(m, o, root, vpn, doFree);
      ghost var done := 0;
      var a := va;
      while a < va + npages * PGSIZE
        invariant a == va + done * PGSIZE && done <= npages
        invariant Valid() && Unmapped(m, o, mem, uses, root, vpn, done, doFree)
        invariant nfree == old(nfree) + if doFree then done else 0
      {
        assert a / PGSIZE == vpn + done;
        UnmapReady(m, o, mem, uses, root, vpn, done, npages, doFree);
        Reached(mem, root, vpn + done);
        var p, i := Walk(root, a, false);
        UnmapStep(m, o, mem, uses, p, root, vpn, done, npages, doFree, freelist, nfree);
        ghost var q, o1, n1 := Backing(mem, uses, root, vpn + done), uses, nfree;
        if doFree {
          var pa := Pa(Entry(mem, p, i));
          Kfree(pa);
        }
        mem := SetEntry(mem, p, i, 0);
        uses := Marked(o1, q, doFree, n1);
        done := done + 1;
        a := a + PGSIZE;
      }
    }

    /** uvmcreate: an empty address space, or 0. */
    method Uvmcreate() returns (root: nat)
      requires Valid()
      modifies this
      ensures Valid() && (root == 0 <==> old(nfree) == 0)
      ensures root == 0 ==> mem == old(mem) && uses == old(uses)
      ensures root != 0 ==>
                root in old(uses) && old(uses)[root].Listed? && uses == old(uses)[root := Root]
                && nfree == old(nfree) - 1
      ensures root != 0 ==> Vacant(mem, root, 0, MAXVPN) && SameMaps(old(mem), mem, old(uses))
      ensures forall p :: p in old(mem) && p != root ==> p in mem && mem[p] == old(mem)[p]
    {
      hide Trees, FreeList, Lookup, SameMaps, Vacant;
      ghost var m, o := mem, uses;
      Aligned(m, o);
      root := Kalloc();
      if root != 0 {
        ghost var mk := mem;
        mem := mem[root := Table(Fill(512, 0))];
        Created(m, o, mk, mem, uses, root, freelist, nfree);
        uses := uses[root := Root];
      }
    }

    /** The steps that uvmalloc and uvmcopy share: take a page, fill it, map it, and give it back if that fails. */
    method AddPage(root: nat, va: nat, flags: nat, page: Page, ghost s: Source) returns (ok: bool)
      requires Valid() && root in uses && uses[root].Root? && va % PGSIZE == 0 && va < MAXVA
      requires Lookup(mem, root, va / PGSIZE) == 0
      requires V(flags) && IsLeaf(flags) && flags < 1024 && page.Data? && |page.bytes| == PGSIZE
      requires flags == FlagsFor(s, va / PGSIZE) && page == PageFor(s, va / PGSIZE)
      modifies this
      ensures Valid()
      ensures ok ==> Grown(old(mem), old(uses), mem, uses, root, va / PGSIZE, 1, s)
      ensures !ok ==> TablesGrew(old(mem), old(uses), mem, uses)
      ensures (ok <==> old(nfree) >= 1 + Lacking(old(uses), root, va / PGSIZE)) && (old(nfree) >= 3 ==> ok)
      ensures ok ==>
                && nfree + 1 + Lacking(old(uses), root, va / PGSIZE) == old(nfree)
                && GainedFor(old(uses), uses, root, va / PGSIZE, 1)
    {
      hide Lookup, Trees, FreeList, TablesGrew, Mapped, Grown, V, IsLeaf, U, FlagsFor, PageFor, SameMaps, Lacking,
          GainedFor, Tables;
      ghost var m, o, v := mem, uses, va / PGSIZE;
      TablesGrewSelf(m, o);
      var pa := Kalloc();
      if pa == 0 {
        return false;
      }
      ghost var mk := mem;
      mem := mem[pa := page];
      ghost var m1, o1 := mem, uses;
      TakenTrees(m, o, m1, o1, pa);
      TakenLacking(m, o, m1, o1, pa, root, v);
      TablesOne(o1, root, v);
      Aligned(m1, o1);
      FilledReady(m, o, mk, m1, o1, root, v, pa, flags, freelist, nfree);
      var r, done := Mappages(root, va, PGSIZE, pa, flags, true);
      ghost var m2, o2 := mem, uses;
      if r == 0 {
        AddedOne(m, o, m1, o1, m2, o2, root, v, pa, flags, s);
        return true;
      }
      MappedKeeps(m1, o1, m2, o2, root, v, pa, flags);
      Aligned(m2, o2);
      Kfree(pa);
      AddedNone(m, o, m1, o1, m2, o2, mem, uses, root, v, pa, flags);
      return false;
    }

    /** uvmdealloc. */
    method Uvmdealloc(root: nat, oldsz: nat, newsz: nat) returns (r: nat)
      requires Valid() && oldsz <= MAXVA
      requires newsz < oldsz ==> CanUnmap(mem, uses, root, Pages(newsz), Pages(oldsz) - Pages(newsz), true)
      modifies this
      ensures Valid() && r == if newsz < oldsz then newsz else oldsz
      ensures
        var n := if newsz < oldsz then Pages(oldsz) - Pages(newsz) else 0;
        Unmapped(old(mem), old(uses), mem, uses, root, Pages(newsz), n, true) && nfree == old(nfree) + n
    {
      hide Trees, FreeList, CanUnmap, Unmapped;
      UnmappedNone(mem, uses, root, Pages(newsz), true);
      if newsz >= oldsz {
        return oldsz;
      }
      if Pages(newsz) * PGSIZE < Pages(oldsz) * PGSIZE {
        var npages := Pages(oldsz) - Pages(newsz);
        assert Pages(newsz) * PGSIZE / PGSIZE == Pages(newsz);
        Uvmunmap(root, Pages(newsz) * PGSIZE, npages, true);
      }
      return newsz;
    }

    /** uvmalloc with permissions R, U and `xperm`: on failure every address space is as before, and all user memory
        taken is free again. */
    method Uvmalloc(root: nat, oldsz: nat, newsz: nat, xperm: nat) returns (r: nat, ghost ok: bool)
      requires Valid() && root in uses && uses[root].Root? && xperm in {0, 4, 8, 12} && newsz <= MAXVA
      requires newsz >= oldsz ==> Vacant(mem, root, Pages(oldsz), Pages(newsz) - Pages(oldsz))
      modifies this
      ensures Valid() && r == if newsz < oldsz then oldsz else if ok then newsz else 0
      ensures newsz < oldsz ==> mem == old(mem) && uses == old(uses)
      ensures newsz >= oldsz && ok ==>
                Grown(old(mem), old(uses), mem, uses, root, Pages(oldsz), Pages(newsz) - Pages(oldsz),
                    Zeroed(19 + xperm))
      ensures newsz >= oldsz && !ok ==> TablesGrew(old(mem), old(uses), mem, uses)
      ensures newsz >= oldsz ==>
                var n := Pages(newsz) - Pages(oldsz);
                && (ok <==> old(nfree) >= n + Tables(old(uses), root, Pages(oldsz), n))
                && (ok ==> nfree + n + Tables(old(uses), root, Pages(oldsz), n) == old(nfree))
                && (old(nfree) >= 3 * n ==> ok)
    {
      hide Trees, FreeList, Vacant, Grown, Unmapped, TablesGrew, Lookup, CanUnmap, Tables, Spent, GainedFor, Lacking;
      if newsz < oldsz {
        return oldsz, true;
      }
      ghost var m, o, lo, s, k := mem, uses, Pages(oldsz), Zeroed(19 + xperm), 0;
      var base := Pages(oldsz) * PGSIZE;
      var a := base;
      GrownNone(m, o, root, lo, s);
      SpentNone(o, nfree, root, lo);
      TablesBound(o, root, lo, Pages(newsz) - lo);
      while a < newsz
        invariant a == base + k * PGSIZE && k <= Pages(newsz) - lo
        invariant Valid() && Grown(m, o, mem, uses, root, lo, k, s)
        invariant Spent(o, old(nfree), uses, nfree, root, lo, k, k)
      {
        assert a / PGSIZE == lo + k && lo + k < Pages(newsz);
        StillVacant(m, o, mem, uses, root, lo, k, Pages(newsz) - lo, s);
        ghost var m1, o1, n1 := mem, uses, nfree;
        var added := AddPage(root, a, 19 + xperm, Data(Fill(PGSIZE, 0)), s);
        if !added {
          SpentStuck(o, old(nfree), o1, n1, root, lo, k, Pages(newsz) - lo, k, 1);
          GrownTables(m, o, m1, o1, mem, uses, root, lo, k, s);
          GrownOwned(m, o, mem, uses, root, lo, k, s);
          m1, o1 := mem, uses;
          var _ := Uvmdealloc(root, a, base);
          VacantPart(m, root, lo, Pages(newsz) - lo, k);
          GrownUndone(m, o, m1, o1, mem, uses, root, lo, k, s);
          return 0, false;
        }
        GrownNext(m, o, m1, o1, mem, uses, root, lo, k, s);
        SpentNext(o, old(nfree), o1, n1, uses, nfree, root, lo, k, k, 1);
        k := k + 1;
        a := a + PGSIZE;
      }
      SpentEnd(o, old(nfree), uses, nfree, root, lo, k, k);
      return newsz, true;
    }

    /** uvmcopy. */
    method Uvmcopy(from: nat, to: nat, sz: nat) returns (r: int)
      requires Valid() && from in uses && uses[from].Root? && to in uses && uses[to].Root? && from != to && sz <= MAXVA
      requires Vacant(mem, to, 0, Pages(sz)) && forall v :: 0 <= v < Pages(sz) ==> OwnedAt(mem, uses, from, v)
      modifies this
      ensures Valid() && (r == 0 || r == -1)
      ensures r == 0 ==> Grown(old(mem), old(uses), mem, uses, to, 0, Pages(sz), CopyOf(old(mem), from))
      ensures r == -1 ==> TablesGrew(old(mem), old(uses), mem, uses)
      ensures r == 0 <==> old(nfree) >= Pages(sz) + Tables(old(uses), to, 0, Pages(sz))
      ensures r == 0 ==> nfree + Pages(sz) + Tables(old(uses), to, 0, Pages(sz)) == old(nfree)
      ensures old(nfree) >= 3 * Pages(sz) ==> r == 0
    {
      hide Trees, FreeList, Vacant, Grown, Unmapped, TablesGrew, Lookup, CanUnmap, Entry, I0, I1, I2, OwnedAt, LowPage,
          V, IsLeaf, FlagsFor, PageFor, Pa, Flags, Tables, Spent, GainedFor, Lacking;
      ghost var m, o, s, k := mem, uses, CopyOf(mem, from), 0;
      GrownNone(m, o, to, 0, s);
      SpentNone(o, nfree, to, 0);
      TablesBound(o, to, 0, Pages(sz));
      var i := 0;
      while i < sz
        invariant i == k * PGSIZE && k <= Pages(sz)
        invariant Valid() && Grown(m, o, mem, uses, to, 0, k, s)
        invariant Spent(o, old(nfree), uses, nfree, to, 0, k, k)
      {
        assert i / PGSIZE == k && k < Pages(sz);
        CopyReady(m, o, mem, uses, from, to, k, s);
        StillVacant(m, o, mem, uses, to, 0, k, Pages(sz), s);
        Reached(mem, from, k);
        var p, j := Walk(from, i, false);
        LowFound(mem, uses, p, k);
        LeafEntry(mem, uses, p, j);
        var e := Entry(mem, p, j);
        LeafFlags(e);
        ghost var m1, o1, n1 := mem, uses, nfree;
        assert e == Lookup(mem, from, k);
        var added := AddPage(to, i, Flags(e), mem[Pa(e)], s);
        if !added {
          SpentStuck(o, old(nfree), o1, n1, to, 0, k, Pages(sz), k, 1);
          GrownTables(m, o, m1, o1, mem, uses, to, 0, k, s);
          GrownOwned(m, o, mem, uses, to, 0, k, s);
          m1, o1 := mem, uses;
          Uvmunmap(to, 0, i / PGSIZE, true);
          VacantPart(m, to, 0, Pages(sz), k);
          GrownUndone(m, o, m1, o1, mem, uses, to, 0, k, s);
          return -1;
        }
        GrownNext(m, o, m1, o1, mem, uses, to, 0, k, s);
        SpentNext(o, old(nfree), o1, n1, uses, nfree, to, 0, k, k, 1);
        k := k + 1;
        i := i + PGSIZE;
      }
      SpentEnd(o, old(nfree), uses, nfree, to, 0, k, k);
      return 0;
    }

    ghost function Depth(u: Use): nat {
      if u.Root? then 2 else if u.Mid? then 1 else 0
    }

    /** freewalk of table page `p`, which entry `ui` of page `up` leads to unless `p` is a root. That entry is left
        dangling: the page tables are well-formed again once the caller has cleared it. */
    method Freewalk(p: nat, ghost up: nat, ghost ui: nat)
      requires Valid() && p in uses && IsTree(uses[p]) && NoLeaves(mem, uses, p)
      requires !uses[p].Root? ==>
                 && up in uses && (uses[up].Root? || uses[up].Mid?) && uses[p] == Below(uses, up, ui)
                 && ui < (if uses[up].Root? then 256 else 512)
      modifies this
      ensures FreeList(mem, uses, freelist, nfree) && InRange(uses) && Freed(old(mem), old(uses), mem, uses, p)
      ensures old(uses)[p].Root? ==> Trees(mem, uses)
      ensures !old(uses)[p].Root? ==> IsTable(mem, up) && Trees(SetEntry(mem, up, ui, 0), uses)
      decreases Depth(uses[p])
    {
      hide Trees, FreeList, NoLeaves, Freed, PartFreed, Entry, V, IsLeaf, Pa, SetEntry;
      ghost var m, o := mem, uses;
      Aligned(m, o);
      PartFreedNone(m, o, p);
      var i := 0;
      while i < 512
        invariant 0 <= i <= 512 && Valid() && PartFreed(m, o, mem, uses, p, i)
      {
        var pte := Entry(mem, p, i);
        if V(pte) && !IsLeaf(pte) {
          ghost var m1, o1 := mem, uses;
          ChildOk(m, o, m1, o1, p, i);
          PartEntry(m, o, m1, o1, p, i);
          var child := Pa(pte);
          Freewalk(child, p, i);
          PartFreedChild(m, o, m1, o1, mem, uses, p, i, child);
          FreedList(mem, uses, p, i, freelist, nfree);
          mem := SetEntry(mem, p, i, 0);
        } else if V(pte) {
          // panic("freewalk: leaf")
          ChildOk(m, o, mem, uses, p, i);
          assert false;
        } else {
          PartFreedSkip(m, o, mem, uses, p, i);
        }
        i := i + 1;
      }
      ghost var m1, o1 := mem, uses;
      PartStays(m, o, m1, o1, p);
      Aligned(m1, o1);
      FreedAll(m, o, m1, o1, p, Free(freelist), nfree);
      if o[p].Root? {
        FreedRoot(m1, o1, p, freelist, nfree);
      } else {
        DownEntry(m, o, up, ui);
        UpNot(o, p, up, ui);
        ParentStays(m, o, m1, o1, p, up, ui, 512);
        FreedTable(m1, o1, p, up, ui, freelist, nfree);
      }
      Kfree(p);
    }

    /** uvmfree: all that belongs to the address space is free, and nothing else has changed. */
    method Uvmfree(root: nat, sz: nat)
      requires Valid() && root in uses && uses[root].Root? && sz <= MAXVA
      requires forall v :: 0 <= v < Pages(sz) ==> OwnedAt(mem, uses, root, v)
      requires Vacant(mem, root, Pages(sz), MAXVPN - Pages(sz))
      modifies this
      ensures Valid() && Destroyed(old(mem), old(uses), mem, uses, root)
    {
      hide Trees, FreeList, NoLeaves, Freed, Lookup, Vacant, Unmapped, CanUnmap, OwnedAt, Destroyed;
      ghost var m, o := mem, uses;
      UnmappedNone(m, o, root, 0, true);
      if sz > 0 {
        OwnedRange(m, o, root, Pages(sz));
        Uvmunmap(root, 0, Pages(sz), true);
      }
      ghost var m1, o1 := mem, uses;
      EmptyLeaves(m, o, m1, o1, root, Pages(sz));
      Freewalk(root, 0, 0);
      DestroyedAll(m, o, m1, o1, mem, uses, root, Pages(sz));
    }

    /** walkaddr: the page that the user finds at `va`, or 0. */
    method Walkaddr(root: nat, va: nat) returns (pa: nat)
      requires Valid() && root in uses && uses[root].Root?
      modifies this
      ensures Valid() && mem == old(mem) && uses == old(uses)
      ensures if Readable(mem, root, va) then pa == Pa(Lookup(mem, root, va / PGSIZE)) && pa != 0 else pa == 0
    {
      hide Trees, FreeList, TablesGrew, I0, I1, I2, Pa, V, U;
      if va >= MAXVA {
        return 0;
      }
      var p, i := Walk(root, va, false);
      Zero();
      if p == 0 {
        return 0;
      }
      LowFound(mem, uses, p, va / PGSIZE);
      var e := Entry(mem, p, i);
      if !V(e) {
        return 0;
      }
      if !U(e) {
        return 0;
      }
      UserLeaf(mem, uses, root, va / PGSIZE);
      Aligned(mem, uses);
      return Pa(e);
    }

    lemma Zero()
      ensures !V(0)
    {
    }

    /** copyout of `src`: the first `done` bytes have been copied, all of them on success. */
    method Copyout(root: nat, dstva: nat, src: seq<byte>) returns (r: int, ghost done: nat)
      requires Valid() && root in uses && uses[root].Root?
      modifies this
      ensures Valid() && uses == old(uses) && done <= |src| && Put(old(mem), mem, uses, root, dstva, src[..done])
      ensures forall x :: dstva <= x < dstva + done ==> Writable(old(mem), root, x)
      ensures if done == |src| then r == 0 else r == -1 && !Writable(old(mem), root, dstva + done)
    {
      hide Trees, FreeList, TablesGrew, I0, I1, I2, Pa, V, U, W, Put, Lookup, LowPage, Entry, UserByte, Splice;
      ghost var m := mem;
      var va, k := dstva, 0;
      PutNone(m, uses, root, dstva);
      while k < |src|
        invariant k <= |src| && (k < |src| ==> va == dstva + k) && uses == old(uses) && Valid()
        invariant Put(m, mem, uses, root, dstva, src[..k])
        invariant forall x :: dstva <= x < dstva + k ==> Writable(m, root, x)
      {
        done := k;
        PutAccess(m, mem, uses, root, dstva, src[..k], va);
        var va0 := va / PGSIZE * PGSIZE;
        if va0 >= MAXVA {
          return -1, k;
        }
        PageOf(va);
        var p, i := Walk(root, va0, false);
        Zero();
        if p == 0 {
          NotMapped(mem, root, va / PGSIZE);
          return -1, k;
        }
        LowFound(mem, uses, p, va / PGSIZE);
        var e := Entry(mem, p, i);
        if !V(e) || !U(e) || !W(e) {
          return -1, k;
        }
        var pa0 := Pa(e);
        var n := PGSIZE - (va - va0);
        if n > |src| - k {
          n := |src| - k;
        }
        PageAccess(m, root, va, n);
        PutPage(mem, uses, root, va, src[k..k + n]);
        ghost var m1 := mem;
        mem := mem[pa0 := Data(Splice(mem[pa0].bytes, va - va0, src[k..k + n]))];
        PutList(m1, mem, uses, pa0, freelist, nfree);
        PutNext(m, m1, mem, uses, root, dstva, src[..k], src[k..k + n]);
        assert src[..k] + src[k..k + n] == src[..k + n];
        k := k + n;
        va := va0 + PGSIZE;
      }
      assert src[..|src|] == src;
      return 0, |src|;
    }

    /** copyin of `len` bytes. */
    method Copyin(root: nat, srcva: nat, len: nat) returns (r: int, dst: seq<byte>)
      requires Valid() && root in uses && uses[root].Root?
      modifies this
      ensures Valid() && mem == old(mem) && uses == old(uses)
      ensures if forall x ::
                srcva <= x < srcva + len ==> Readable(mem, root, x) then r == 0 && |dst| == len else r == -1
      ensures forall k :: 0 <= k < |dst| ==> dst[k] == UserByte(mem, root, srcva + k)
    {
      hide Trees, FreeList, Lookup, V, U, Pa;
      var va := srcva;
      dst := [];
      while |dst| < len
        invariant |dst| <= len && (|dst| < len ==> va == srcva + |dst|) && Valid() && mem == old(mem)
        invariant uses == old(uses)
        invariant forall x :: srcva <= x < srcva + |dst| ==> Readable(mem, root, x)
        invariant forall k :: 0 <= k < |dst| ==> dst[k] == UserByte(mem, root, srcva + k)
      {
        PageOf(va);
        var va0 := va / PGSIZE * PGSIZE;
        var pa0 := Walkaddr(root, va0);
        if pa0 == 0 {
          assert !Readable(mem, root, va);
          return -1, dst;
        }
        var n := PGSIZE - (va - va0);
        if n > len - |dst| {
          n := len - |dst|;
        }
        UserLeaf(mem, uses, root, va / PGSIZE);
        PageAccess(mem, root, va, n);
        var part := mem[pa0].bytes[va - va0..va - va0 + n];
        PartBytes(mem, root, va, n, part);
        dst := dst + part;
        va := va0 + PGSIZE;
      }
      return 0, dst;
    }

    /** copyout and then copyin give the bytes back. */
    method CopyRoundTrip(root: nat, va: nat, src: seq<byte>) returns (ok: bool, dst: seq<byte>)
      requires Valid() && root in uses && uses[root].Root?
      modifies this
      ensures Valid() && uses == old(uses)
      ensures ok <==> forall x :: va <= x < va + |src| ==> Writable(old(mem), root, x)
      ensures ok ==> dst == src && Put(old(mem), mem, uses, root, va, src)
    {
      hide Trees, FreeList, Lookup, UserByte, V, U, W, Put;
      ghost var m := mem;
      var r, done := Copyout(root, va, src);
      assert src[..|src|] == src;
      ok, dst := r == 0, [];
      if ok {
        forall x | va <= x < va + |src| ensures Readable(mem, root, x) {
          PutAccess(m, mem, uses, root, va, src, x);
        }
        assert |src| > 0 ==> Readable(mem, root, va + |src| - 1);
        r, dst := Copyin(root, va, |src|);
        PutBack(m, mem, uses, root, va, src, dst);
      }
    }

    /** uvmalloc, copyin from the new pages, and copyout to them: they read as zeros, and they can be written exactly
        if `xperm` has the write bit. */
    method AllocWrite(root: nat, oldsz: nat, newsz: nat, xperm: nat, va: nat, src: seq<byte>)
        returns (ok: bool, zeros: seq<byte>, written: bool, dst: seq<byte>)
      requires Valid() && root in uses && uses[root].Root? && xperm in {0, 4, 8, 12} && oldsz <= newsz <= MAXVA
      requires Vacant(mem, root, Pages(oldsz), Pages(newsz) - Pages(oldsz))
      requires src != [] && Pages(oldsz) * PGSIZE <= va && va + |src| <= Pages(newsz) * PGSIZE
      modifies this
      ensures Valid()
      ensures ok <==> old(nfree) >= Pages(newsz) - Pages(oldsz) +
                        Tables(old(uses), root, Pages(oldsz), Pages(newsz) - Pages(oldsz))
      ensures ok ==> |zeros| == |src| && forall k :: 0 <= k < |src| ==> zeros[k] == 0
      ensures ok ==> (written <==> xperm in {4, 12}) && (written ==> dst == src)
    {
      hide Trees, FreeList, Vacant, Grown, TablesGrew, Lookup, Tables, Put, UserByte, V, U, W, NewPage;
      ghost var m, o, lo, n := mem, uses, Pages(oldsz), Pages(newsz) - Pages(oldsz);
      var sz, grown := Uvmalloc(root, oldsz, newsz, xperm);
      ok, zeros, written, dst := sz != 0, [], false, [];
      if ok {
        GrownRoot(m, o, mem, uses, root, lo, n, Zeroed(19 + xperm));
        forall x | va <= x < va + |src|
          ensures Readable(mem, root, x) && (Writable(mem, root, x) <==> xperm in {4, 12})
          ensures UserByte(mem, root, x) == 0
        {
          GrownAccess(m, o, mem, uses, root, lo, n, xperm, x);
        }
        var r;
        r, zeros := Copyin(root, va, |src|);
        hide Readable, Writable;
        assert Writable(mem, root, va) <==> xperm in {4, 12};
        written, dst := CopyRoundTrip(root, va, src);
      }
    }
  }

  /** What a user process may do with a new page. */
  lemma GrownAccess(m: Memory, o: Uses, m': Memory, o': Uses, root: nat, lo: nat, n: nat, xperm: nat, va: nat)
    requires Grown(m, o, m', o', root, lo, n, Zeroed(19 + xperm)) && xperm in {0, 4, 8, 12}
    requires lo * PGSIZE <= va < (lo + n) * PGSIZE <= MAXVA
    ensures Readable(m', root, va) && (Writable(m', root, va) <==> xperm in {4, 12}) && UserByte(m', root, va) == 0
  {
    hide Lookup, GrownUses;
    var v := va / PGSIZE;
    assert lo <= v < lo + n;
    assert NewPage(m, o, m', o', root, v, Zeroed(19 + xperm));
    FlagBits(Lookup(m', root, v));
  }

  lemma FlagBits(e: nat)
    ensures e / 4 % 2 == Flags(e) / 4 % 2 && e / 16 % 2 == Flags(e) / 16 % 2
  {
    var k, f := e / 1024, e % 1024;
    Quotients(k * 256, k * 64, f);
    Even(k * 128, f / 4);
    Even(k * 32, f / 16);
  }

  lemma Quotients(a: nat, c: nat, b: nat)
    ensures (a * 4 + b) / 4 == a + b / 4 && (c * 16 + b) / 16 == c + b / 16
  {
  }

  lemma Even(a: nat, b: nat)
    ensures (2 * a + b) % 2 == b % 2
  {
  }

  lemma GrownRoot(m: Memory, o: Uses, m': Memory, o': Uses, root: nat, lo: nat, n: nat, s: Source)
    requires Grown(m, o, m', o', root, lo, n, s) && root in o && o[root].Root?
    ensures root in o' && o'[root].Root?
  {
    hide Lookup, NewPage;
  }
}
