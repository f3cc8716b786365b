/** Taking a page table apart. */
module VmFree {
  import opened Sv39
  import opened VmState
  import opened VmRange
  import opened VmUnmap
  import opened VmGrow

  /** Table page `x` hangs below table page `p`. */
  ghost predicate Hangs(o: Uses, p: nat, x: nat)
    requires p in o && x in o
  {
    if o[p].Root? then (o[x].Mid? || o[x].Low?) && o[x].root == p
    else o[p].Mid? && o[x].Low? && o[x].root == o[p].root && o[x].i2 == o[p].i2
  }

  /** The entry of `p` that leads to `x`. */
  ghost function IndexOf(o: Uses, p: nat, x: nat): nat
    requires p in o && x in o && Hangs(o, p, x)
  {
    if o[p].Root? then o[x].i2 else o[x].i1
  }

  /** No level-0 table page at or below `p` has a valid entry. */
  ghost predicate NoLeaves(m: Memory, o: Uses, p: nat)
    requires p in o
  {
    forall x :: x in o && o[x].Low? && (x == p || Hangs(o, p, x)) ==> Blank(m, x)
  }

  /** All table pages at and below `p` are free; nothing else has changed. */
  ghost predicate Freed(m: Memory, o: Uses, m': Memory, o': Uses, p: nat)
    requires p in o
  {
    && m.Keys == o.Keys && m'.Keys == o.Keys && o'.Keys == o.Keys
    && (forall x :: x in o ==> if x == p || Hangs(o, p, x) then o'[x].Listed? else o'[x] == o[x] && m'[x] == m[x])
  }

  /** The same for what hangs below the first `n` entries of `p`, which have been cleared. */
  ghost predicate PartFreed(m: Memory, o: Uses, m': Memory, o': Uses, p: nat, n: nat)
    requires p in o
  {
    && m.Keys == o.Keys && m'.Keys == o.Keys && o'.Keys == o.Keys && o'[p] == o[p] && IsTable(m', p)
    && (forall x ::
          x in o && x != p ==> if Hangs(o, p, x) && IndexOf(o, p, x) < n then o'[x].Listed?
          else o'[x] == o[x] && m'[x] == m[x])
    && (forall i :: 0 <= i < 512 ==> if i < n then !V(Entry(m', p, i)) else Entry(m', p, i) == Entry(m, p, i))
  }

  lemma PartFreedNone(m: Memory, o: Uses, p: nat)
    requires Trees(m, o) && p in o && IsTree(o[p])
    ensures PartFreed(m, o, m, o, p, 0)
  {
    hide DownRoot, DownMid, DownLow, Up;
  }

  /** What hangs at entry `i` of `p` is there, and is all that entry `i` leads to. */
  lemma AtIndex(m: Memory, o: Uses, p: nat, x: nat)
    requires Trees(m, o) && p in o && x in o && IsTree(o[p]) && Hangs(o, p, x)
    ensures
      var i := IndexOf(o, p, x);
      var e := Entry(m, p, i);
      && i < (if o[p].Root? then 256 else 512) && V(e) && Flags(e) == 1 && Pa(e) in o && o[Pa(e)] == Below(o, p, i)
      && (x == Pa(e) || Hangs(o, Pa(e), x))
  {
    if o[x].Mid? {
      assert UpMid(m, o, x);
    } else {
      assert UpLow(m, o, x);
      if o[p].Mid? {
        assert UpMid(m, o, p);
      }
    }
  }

  /** What hangs below the child at entry `i` hangs below `p` at entry `i`. */
  lemma BelowIndex(m: Memory, o: Uses, p: nat, i: nat, c: nat, x: nat)
    requires Trees(m, o) && p in o && x in o && c in o && (o[p].Root? || o[p].Mid?) && o[c] == Below(o, p, i)
    requires (x == c || Hangs(o, c, x))
    ensures Hangs(o, p, x) && IndexOf(o, p, x) == i && x != p
  {
  }

  lemma ChildOk(m: Memory, o: Uses, m1: Memory, o1: Uses, p: nat, i: nat)
    requires Trees(m, o) && p in o && IsTree(o[p]) && NoLeaves(m, o, p) && i < 512
    requires Trees(m1, o1) && PartFreed(m, o, m1, o1, p, i) && V(Entry(m1, p, i))
    ensures (o[p].Root? || o[p].Mid?) && !IsLeaf(Entry(m1, p, i))
    ensures
      var c := Pa(Entry(m1, p, i));
      && c in o && c in o1 && o1[c] == o[c] == Below(o, p, i) == Below(o1, p, i) && (o[p].Root? ==> i < 256)
            && NoLeaves(m1, o1, c)
  {
    hide Trees, Blank, Pa, V, Entry, Hangs, IndexOf, Below;
    SameEntry(m, o, m1, o1, p, i);
    if o[p].Low? {
      assert Blank(m, p);
      BlankAt(m, p, i);
    } else {
      var c := Pa(Entry(m1, p, i));
      DownEntry(m, o, p, i);
      DownEntry(m1, o1, p, i);
      BelowIndex(m, o, p, i, c, c);
      AtIndex(m, o, p, c);
      NotLeaf(Entry(m, p, i));
      SameBelow(o, o1, p, i);
      ChildLeaves(m, o, m1, o1, p, i, c);
    }
  }

  lemma SameEntry(m: Memory, o: Uses, m1: Memory, o1: Uses, p: nat, i: nat)
    requires p in o && PartFreed(m, o, m1, o1, p, i) && i < 512
    ensures Entry(m1, p, i) == Entry(m, p, i)
  {
  }

  lemma NotLeaf(e: nat)
    requires Flags(e) == 1
    ensures !IsLeaf(e)
  {
  }

  lemma SameBelow(o: Uses, o1: Uses, p: nat, i: nat)
    requires p in o && p in o1 && o1[p] == o[p] && (o[p].Root? || o[p].Mid?)
    ensures Below(o1, p, i) == Below(o, p, i)
  {
  }

  lemma BlankAt(m: Memory, p: nat, i: nat)
    requires Blank(m, p) && i < 512
    ensures !V(Entry(m, p, i))
  {
  }

  lemma ChildLeaves(m: Memory, o: Uses, m1: Memory, o1: Uses, p: nat, i: nat, c: nat)
    requires Trees(m, o) && p in o && NoLeaves(m, o, p) && PartFreed(m, o, m1, o1, p, i)
    requires (o[p].Root? || o[p].Mid?) && c in o && c in o1 && o1[c] == o[c] == Below(o, p, i)
    ensures NoLeaves(m1, o1, c)
  {
    hide Trees, Blank, Entry;
    forall x | x in o1 && o1[x].Low? && (x == c || Hangs(o1, c, x)) ensures Blank(m1, x) {
      assert o[x] == o1[x];
      BelowIndex(m, o, p, i, c, x);
      BlankSame(m, m1, x);
    }
  }

  lemma BlankSame(m: Memory, m1: Memory, x: nat)
    requires Blank(m, x) && x in m1 && m1[x] == m[x]
    ensures Blank(m1, x)
  {
    assert forall i :: Entry(m1, x, i) == Entry(m, x, i);
  }

  lemma PartFreedSkip(m: Memory, o: Uses, m1: Memory, o1: Uses, p: nat, i: nat)
    requires Trees(m, o) && p in o && IsTree(o[p]) && PartFreed(m, o, m1, o1, p, i) && i < 512 && !V(Entry(m1, p, i))
    ensures PartFreed(m, o, m1, o1, p, i + 1)
  {
    hide Trees, V;
    forall x | x in o && Hangs(o, p, x) ensures IndexOf(o, p, x) != i {
      AtIndex(m, o, p, x);
    }
  }

  lemma PartFreedChild(m: Memory, o: Uses, m1: Memory, o1: Uses, m2: Memory, o2: Uses, p: nat, i: nat, c: nat)
    requires Trees(m, o) && p in o && (o[p].Root? || o[p].Mid?) && PartFreed(m, o, m1, o1, p, i) && i < 512
    requires c in o && c in o1 && o1[c] == o[c] == Below(o, p, i) && Freed(m1, o1, m2, o2, c) && Pa(Entry(m, p, i)) == c
    ensures IsTable(m2, p) && m2[p] == m1[p]
    ensures PartFreed(m, o, SetEntry(m2, p, i, 0), o2, p, i + 1)
  {
    hide Trees, Pa;
    assert IsTable(m2, p) && m2[p] == m1[p];
    var m3 := SetEntry(m2, p, i, 0);
    forall j | 0 <= j < 512 ensures if j < i + 1 then !V(Entry(m3, p, j)) else Entry(m3, p, j) == Entry(m, p, j) {
      EntryAfterSet(m2, p, i, 0, p, j);
      assert Entry(m2, p, j) == Entry(m1, p, j);
    }
    forall x | x in o && x != p
        ensures if Hangs(o, p, x) && IndexOf(o, p, x) < i + 1 then o2[x].Listed? else o2[x] == o[x] && m3[x] == m[x] {
      ChildRest(m, o, m1, o1, m2, o2, p, i, c, x);
    }
  }

  lemma ChildRest(m: Memory, o: Uses, m1: Memory, o1: Uses, m2: Memory, o2: Uses, p: nat, i: nat, c: nat, x: nat)
    requires Trees(m, o) && p in o && (o[p].Root? || o[p].Mid?) && PartFreed(m, o, m1, o1, p, i) && i < 512
    requires c in o && c in o1 && o1[c] == o[c] == Below(o, p, i) && Freed(m1, o1, m2, o2, c) && Pa(Entry(m, p, i)) == c
    requires x in o && x != p
    ensures if Hangs(o, p, x) && IndexOf(o, p, x) < i + 1 then o2[x].Listed? else o2[x] == o[x] && m2[x] == m[x]
  {
    hide Trees, Pa, Entry, V;
    if Hangs(o, p, x) {
      AtIndex(m, o, p, x);
    }
    if o1[x] == o[x] && (x == c || Hangs(o, c, x)) {
      BelowIndex(m, o, p, i, c, x);
    }
  }

  /** Everything below `p` is gone; freeing `p` itself completes the work. */
  lemma FreedAll(m: Memory, o: Uses, m1: Memory, o1: Uses, p: nat, page: Page, n: nat)
    requires Trees(m, o) && p in o && IsTree(o[p]) && PartFreed(m, o, m1, o1, p, 512)
    ensures Freed(m, o, m1[p := page], o1[p := Listed(n)], p) && Blank(m1, p)
  {
    hide Trees, V;
    forall x | x in o && Hangs(o, p, x) ensures IndexOf(o, p, x) < 512 {
      AtIndex(m, o, p, x);
    }
  }

  lemma FreedRoot(m1: Memory, o1: Uses, p: nat, head: nat, n: nat)
    requires Trees(m1, o1) && p in o1 && o1[p].Root? && Blank(m1, p)
    ensures Trees(m1[p := Free(head)], o1[p := Listed(n)])
  {
    hide Trees, Blank;
    OldRoot(m1, o1, p);
    Retyped(m1, o1[p := Kernel], p, Free(head), Listed(n));
    assert o1[p := Kernel][p := Listed(n)] == o1[p := Listed(n)];
  }

  lemma FreedTable(m1: Memory, o1: Uses, p: nat, up: nat, ui: nat, head: nat, n: nat)
    requires Trees(m1, o1) && p in o1 && up in o1 && (o1[up].Root? || o1[up].Mid?) && o1[p] == Below(o1, up, ui)
    requires ui < (if o1[up].Root? then 256 else 512) && Blank(m1, p)
    ensures IsTable(m1, up) && up != p
    ensures Trees(SetEntry(m1[p := Free(head)], up, ui, 0), o1[p := Listed(n)])
  {
    hide DownRoot, DownMid, DownLow, Up, Blank;
    Unhook(m1, o1, up, ui, p);
    var m2 := SetEntry(m1, up, ui, 0);
    Retyped(m2, o1[p := Kernel], p, Free(head), Listed(n));
    assert m2[p := Free(head)] == SetEntry(m1[p := Free(head)], up, ui, 0);
    assert o1[p := Kernel][p := Listed(n)] == o1[p := Listed(n)];
  }

  /** The page above `p` is not touched while `p` is taken apart. */
  lemma ParentStays(m: Memory, o: Uses, m1: Memory, o1: Uses, p: nat, up: nat, ui: nat, n: nat)
    requires p in o && up in o && (o[up].Root? || o[up].Mid?) && o[p] == Below(o, up, ui)
    requires PartFreed(m, o, m1, o1, p, n) && p != up
    ensures up in o1 && o1[up] == o[up] && m1[up] == m[up] && Below(o1, up, ui) == o1[p]
  {
  }

  lemma UpNot(o: Uses, p: nat, up: nat, ui: nat)
    requires p in o && up in o && (o[up].Root? || o[up].Mid?) && o[p] == Below(o, up, ui)
    ensures p != up
  {
  }

  lemma PartStays(m: Memory, o: Uses, m1: Memory, o1: Uses, p: nat)
    requires p in o && PartFreed(m, o, m1, o1, p, 512)
    ensures p in o1 && o1[p] == o[p] && IsTable(m1, p) && o1.Keys == o.Keys && m1.Keys == o.Keys
  {
  }

  lemma PartEntry(m: Memory, o: Uses, m1: Memory, o1: Uses, p: nat, i: nat)
    requires p in o && PartFreed(m, o, m1, o1, p, i) && i < 512
    ensures Entry(m1, p, i) == Entry(m, p, i) && p in o1 && o1[p] == o[p] && o1.Keys == o.Keys
  {
  }

  lemma FreedList(m: Memory, o: Uses, p: nat, i: nat, head: nat, n: nat)
    requires FreeList(m, o, head, n) && IsTable(m, p) && i < 512
    ensures FreeList(SetEntry(m, p, i, 0), o, head, n)
  {
    ListSame(m, o, SetEntry(m, p, i, 0), o, head, n);
  }

  // ---------------------------------------------------------------- a whole address space

  ghost predicate Belongs(p: nat, u: Use, root: nat) {
    p == root || ((u.Mid? || u.Low? || u.Leaf?) && u.root == root)
  }

  /** Every page of the address space, table or user memory, is free; every other page has kept its use, its content
      unless it is a table page, and every other address space its map. */
  ghost predicate Destroyed(m: Memory, o: Uses, m': Memory, o': Uses, root: nat) {
    && m.Keys == o.Keys && m'.Keys == o.Keys && o'.Keys == o.Keys
    && (forall p ::
          p in o ==> if Belongs(p, o[p], root) then o'[p].Listed?
          else o'[p] == o[p] && (!IsTree(o[p]) ==> m'[p] == m[p]))
    && (forall r, v :: r in o && o[r].Root? && r != root && 0 <= v < MAXVPN ==> Lookup(m', r, v) == Lookup(m, r, v))
  }

  lemma OwnedRange(m: Memory, o: Uses, root: nat, n: nat)
    requires root in o && o[root].Root? && n <= MAXVPN && forall v :: 0 <= v < n ==> OwnedAt(m, o, root, v)
    ensures CanUnmap(m, o, root, 0, n, true)
  {
    forall v | 0 <= v < n ensures V(Lookup(m, root, v)) {
      assert OwnedAt(m, o, root, v);
    }
  }

  /** With nothing mapped, the level-0 table pages are empty. */
  lemma EmptyLeaves(m: Memory, o: Uses, m1: Memory, o1: Uses, root: nat, n: nat)
    requires Trees(m1, o1) && root in o && o[root].Root? && Unmapped(m, o, m1, o1, root, 0, n, true) && n <= MAXVPN
    requires Vacant(m, root, n, MAXVPN - n)
    ensures root in o1 && o1[root].Root? && NoLeaves(m1, o1, root)
  {
    hide Lookup, DownRoot, DownMid, DownLow, VpnOf;
    forall v | 0 <= v < MAXVPN ensures Lookup(m1, root, v) == 0 {
    }
    forall x | x in o1 && o1[x].Low? && (x == root || Hangs(o1, root, x)) ensures Blank(m1, x) {
      assert UpLow(m1, o1, x);
      forall i | 0 <= i < 512 ensures !V(Entry(m1, x, i)) {
        LowEntry(m1, o1, x, i);
      }
    }
  }

  lemma DestroyedAll(m: Memory, o: Uses, m1: Memory, o1: Uses, m2: Memory, o2: Uses, root: nat, n: nat)
    requires Trees(m, o) && root in o && o[root].Root? && Unmapped(m, o, m1, o1, root, 0, n, true) && n <= MAXVPN
    requires Vacant(m, root, n, MAXVPN - n)
    requires Trees(m1, o1) && root in o1 && o1[root].Root? && Freed(m1, o1, m2, o2, root) && Trees(m2, o2)
    ensures Destroyed(m, o, m2, o2, root)
  {
    hide Lookup, DownRoot, DownMid, DownLow, Up;
    forall p | p in o && o[p].Leaf? && o[p].root == root ensures InLeaves(o[p], root, 0, n) {
      OneLeaf(m, o, p, p);
    }
    forall r, v | r in o && o[r].Root? && r != root && 0 <= v < MAXVPN ensures Lookup(m2, r, v) == Lookup(m, r, v) {
      assert o1[r] == o[r];
      OtherMap(m1, o1, m2, o2, root, r, v);
    }
  }

  lemma OtherMap(m1: Memory, o1: Uses, m2: Memory, o2: Uses, root: nat, r: nat, v: nat)
    requires Trees(m1, o1) && root in o1 && o1[root].Root? && Freed(m1, o1, m2, o2, root) && r in o1 && o1[r].Root?
    requires r != root && v < MAXVPN
    ensures Lookup(m2, r, v) == Lookup(m1, r, v)
  {
    hide Up, DownLow;
    WalkPath(m1, o1, r, v);
  }
}
