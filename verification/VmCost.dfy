/** How many pages the page tables of a range need. */
module VmCost {
  import opened Sv39
  import opened VmState
  import opened VmRange

  ghost predicate Has(o: Uses, u: Use) {
    exists p :: p in o && o[p] == u
  }

  predicate Inner(u: Use) {
    u.Mid? || u.Low?
  }

  /** The table page with use `u` is there, and no other table page has come or gone. */
  ghost predicate Gained(o: Uses, o': Uses, u: Use) {
    forall x: Use :: Inner(x) ==> (Has(o', x) <==> Has(o, x) || x == u)
  }

  ghost predicate SameInner(o: Uses, o': Uses) {
    forall x: Use :: Inner(x) ==> (Has(o', x) <==> Has(o, x))
  }

  /** A page that is no table page gets another use. */
  lemma SetUse(o: Uses, q: nat, u: Use)
    requires q in o && !Inner(o[q])
    ensures Inner(u) ==> Gained(o, o[q := u], u)
    ensures !Inner(u) ==> SameInner(o, o[q := u])
  {
    var o' := o[q := u];
    forall x: Use | Inner(x) ensures Has(o', x) <==> Has(o, x) || x == u {
      if Has(o, x) {
        var p :| p in o && o[p] == x;
        assert o'[p] == x;
      }
      if x == u {
        assert o'[q] == x;
      }
    }
  }

  /** A free page becomes a table page. */
  lemma TakenGained(m: Memory, o: Uses, m': Memory, o': Uses, q: nat, u: Use)
    requires Taken(m, o, m', o', q) && Inner(u)
    ensures Gained(o, o'[q := u], u)
  {
    hide Has;
    assert o'[q := u] == o[q := u];
    SetUse(o, q, u);
  }

  /** A free page becomes a page of user memory. */
  lemma TakenSame(m: Memory, o: Uses, m': Memory, o': Uses, q: nat)
    requires Taken(m, o, m', o', q)
    ensures SameInner(o, o')
  {
    hide Has;
    SetUse(o, q, o'[q]);
  }

  /** An entry is valid exactly if the table page below it is there. */
  lemma EntryHas(m: Memory, o: Uses, p: nat, i: nat)
    requires Trees(m, o) && p in o && (o[p].Root? || o[p].Mid?) && i < (if o[p].Root? then 256 else 512)
    ensures V(Entry(m, p, i)) <==> Has(o, Below(o, p, i))
  {
    hide DownLow;
    DownEntry(m, o, p, i);
    if Has(o, Below(o, p, i)) {
      var q :| q in o && o[q] == Below(o, p, i);
      ReachedEntry(m, o, p, i, q);
    }
  }

  lemma ReachedEntry(m: Memory, o: Uses, p: nat, i: nat, q: nat)
    requires Trees(m, o) && p in o && (o[p].Root? || o[p].Mid?) && q in o && o[q] == Below(o, p, i)
    ensures V(Entry(m, p, i))
  {
    hide DownRoot, DownMid, DownLow;
    if o[p].Root? {
      assert UpMid(m, o, q);
    } else {
      assert UpMid(m, o, p) && UpLow(m, o, q);
    }
  }

  // ---------------------------------------------------------------- what one virtual page needs

  function MidUse(root: nat, v: nat): Use {
    Mid(root, I2(v))
  }

  function LowUse(root: nat, v: nat): Use {
    Low(root, I2(v), I1(v))
  }

  /** Table pages on the way to virtual page `v` that are missing. */
  ghost function Lacking(o: Uses, root: nat, v: nat): (n: nat)
    ensures n <= 2
  {
    (if Has(o, MidUse(root, v)) then 0 else 1) + (if Has(o, LowUse(root, v)) then 0 else 1)
  }

  /** The table pages for `n` virtual pages from `lo` on are there, and no other table page has come or gone. */
  ghost predicate GainedFor(o: Uses, o': Uses, root: nat, lo: nat, n: nat) {
    forall x: Use :: Inner(x) ==> (Has(o', x) <==> Has(o, x) || OnWay(x, root, lo, n))
  }

  ghost predicate OnWay(x: Use, root: nat, lo: nat, n: nat) {
    exists v :: lo <= v < lo + n && (x == MidUse(root, v) || x == LowUse(root, v))
  }

  lemma GainedNone(o: Uses, root: nat, lo: nat)
    ensures GainedFor(o, o, root, lo, 0)
  {
  }

  lemma GainedSame(o: Uses, o1: Uses, o2: Uses, root: nat, lo: nat, n: nat)
    requires GainedFor(o, o1, root, lo, n) && SameInner(o1, o2)
    ensures GainedFor(o, o2, root, lo, n)
  {
    hide Has, OnWay;
  }

  lemma GainedNext(o: Uses, o1: Uses, o2: Uses, root: nat, lo: nat, n: nat)
    requires GainedFor(o, o1, root, lo, n) && GainedFor(o1, o2, root, lo + n, 1)
    ensures GainedFor(o, o2, root, lo, n + 1)
  {
    hide Has;
    forall x: Use | Inner(x) ensures Has(o2, x) <==> Has(o, x) || OnWay(x, root, lo, n + 1) {
      assert Has(o2, x) <==> Has(o1, x) || OnWay(x, root, lo + n, 1);
      assert Has(o1, x) <==> Has(o, x) || OnWay(x, root, lo, n);
      OnWayNext(x, root, lo, n);
    }
  }

  lemma OnWayNext(x: Use, root: nat, lo: nat, n: nat)
    ensures OnWay(x, root, lo, n + 1) <==> OnWay(x, root, lo, n) || OnWay(x, root, lo + n, 1)
  {
    hide MidUse, LowUse;
    if OnWay(x, root, lo, n + 1) {
      var v :| lo <= v < lo + n + 1 && (x == MidUse(root, v) || x == LowUse(root, v));
      assert v < lo + n || v == lo + n;
    }
  }

  /** Both levels of a walk. */
  lemma GainedBoth(o: Uses, o1: Uses, o2: Uses, root: nat, v: nat)
    requires Gained(o, o1, MidUse(root, v)) && Gained(o1, o2, LowUse(root, v))
    ensures GainedFor(o, o2, root, v, 1)
  {
    hide Has;
    forall x: Use | Inner(x) ensures Has(o2, x) <==> Has(o, x) || OnWay(x, root, v, 1) {
      assert Has(o2, x) <==> Has(o1, x) || x == LowUse(root, v);
      assert Has(o1, x) <==> Has(o, x) || x == MidUse(root, v);
      assert OnWay(x, root, v, 1) <==> x == MidUse(root, v) || x == LowUse(root, v);
    }
  }

  /** How far a `walk` for virtual page `v` that started with uses `o` and `n` free pages has come. */
  ghost predicate Walked(o: Uses, n: nat, o': Uses, n': nat, root: nat, v: nat, level: nat) {
    if level == 2 then o' == o && n' == n
    else if level == 1 then Gained(o, o', MidUse(root, v)) && n' + (if Has(o, MidUse(root, v)) then 0 else 1) == n
    else GainedFor(o, o', root, v, 1) && n' + Lacking(o, root, v) == n
  }

  function UseAt(level: nat, root: nat, v: nat): Use {
    if level == 2 then MidUse(root, v) else LowUse(root, v)
  }

  lemma WalkedStart(o: Uses, n: nat, root: nat, v: nat)
    ensures Walked(o, n, o, n, root, v, 2)
  {
  }

  lemma WalkedNext(o: Uses, n: nat, o1: Uses, n1: nat, o2: Uses, n2: nat, root: nat, v: nat, level: nat)
    requires level == 1 || level == 2
    requires Walked(o, n, o1, n1, root, v, level) && Gained(o1, o2, UseAt(level, root, v))
    requires n2 + (if Has(o1, UseAt(level, root, v)) then 0 else 1) == n1
    ensures Walked(o, n, o2, n2, root, v, level - 1)
  {
    hide Has;
    if level == 1 {
      GainedBoth(o, o1, o2, root, v);
      assert Has(o1, LowUse(root, v)) <==> Has(o, LowUse(root, v));
    }
  }

  lemma WalkedStuck(o: Uses, n: nat, o1: Uses, n1: nat, root: nat, v: nat, level: nat)
    requires level == 1 || level == 2
    requires Walked(o, n, o1, n1, root, v, level) && n1 == 0 && !Has(o1, UseAt(level, root, v))
    ensures n < Lacking(o, root, v)
  {
    hide Has;
    if level == 1 {
      assert Has(o1, LowUse(root, v)) <==> Has(o, LowUse(root, v));
    }
  }

  lemma WalkedEnd(o: Uses, n: nat, o': Uses, n': nat, root: nat, v: nat)
    requires Walked(o, n, o', n', root, v, 0)
    ensures GainedFor(o, o', root, v, 1) && n' + Lacking(o, root, v) == n
  {
  }

  lemma GainedSelf(o: Uses, u: Use)
    ensures Has(o, u) ==> Gained(o, o, u)
  {
    hide Has;
  }

  // ---------------------------------------------------------------- what a range needs

  predicate SameLow(u: nat, v: nat) {
    I2(u) == I2(v) && I1(u) == I1(v)
  }

  /** Table pages that virtual page `v` of a range that starts at `lo` adds to those of the pages before it. */
  ghost function TablesAt(o: Uses, root: nat, lo: nat, v: nat): nat {
    (if Has(o, MidUse(root, v)) || (lo < v && I2(v - 1) == I2(v)) then 0 else 1)
    + (if Has(o, LowUse(root, v)) || (lo < v && SameLow(v - 1, v)) then 0 else 1)
  }

  /** Table pages that are missing for `n` virtual pages from `lo` on. */
  ghost function Tables(o: Uses, root: nat, lo: nat, n: nat): nat {
    if n == 0 then 0 else Tables(o, root, lo, n - 1) + TablesAt(o, root, lo, lo + n - 1)
  }

  lemma Between(lo: nat, u: nat, v: nat)
    requires lo <= u < v
    ensures I2(u) == I2(v) ==> I2(v - 1) == I2(v)
    ensures SameLow(u, v) ==> SameLow(v - 1, v)
  {
    TwoSteps(u);
    TwoSteps(v);
    TwoSteps(v - 1);
    assert u / 512 <= (v - 1) / 512 <= v / 512;
    if SameLow(u, v) {
      SameQuotient(u, v);
    }
  }

  lemma SameQuotient(u: nat, v: nat)
    requires SameLow(u, v)
    ensures u / 512 == v / 512
  {
    TwoSteps(u);
    TwoSteps(v);
    var a, b := u / 512, v / 512;
    assert a == a / 512 * 512 + a % 512 && b == b / 512 * 512 + b % 512;
  }

  /** After the first `n` pages the next one lacks exactly its share. */
  lemma LackingIs(o: Uses, o': Uses, root: nat, lo: nat, n: nat)
    requires GainedFor(o, o', root, lo, n)
    ensures Lacking(o', root, lo + n) == TablesAt(o, root, lo, lo + n)
  {
    hide Has, I2, I1;
    var v := lo + n;
    assert Has(o', MidUse(root, v)) <==> Has(o, MidUse(root, v)) || OnWay(MidUse(root, v), root, lo, n);
    assert Has(o', LowUse(root, v)) <==> Has(o, LowUse(root, v)) || OnWay(LowUse(root, v), root, lo, n);
    if OnWay(MidUse(root, v), root, lo, n) {
      var u :| lo <= u < v && (MidUse(root, v) == MidUse(root, u) || MidUse(root, v) == LowUse(root, u));
      Between(lo, u, v);
    }
    if OnWay(LowUse(root, v), root, lo, n) {
      var u :| lo <= u < v && (LowUse(root, v) == MidUse(root, u) || LowUse(root, v) == LowUse(root, u));
      Between(lo, u, v);
    }
    if lo < v {
      assert I2(v - 1) == I2(v) ==> MidUse(root, v) == MidUse(root, v - 1);
      assert SameLow(v - 1, v) ==> LowUse(root, v) == LowUse(root, v - 1);
    }
  }

  /** Two table pages per virtual page are always enough. */
  lemma {:induction false} TablesBound(o: Uses, root: nat, lo: nat, n: nat)
    ensures Tables(o, root, lo, n) <= 2 * n
  {
    if n > 0 {
      TablesBound(o, root, lo, n - 1);
    }
  }

  lemma {:induction false} TablesMonotone(o: Uses, root: nat, lo: nat, k: nat, n: nat)
    requires k <= n
    ensures Tables(o, root, lo, k) <= Tables(o, root, lo, n)
  {
    if k < n {
      TablesMonotone(o, root, lo, k, n - 1);
    }
  }

  /** `k` virtual pages from `lo` on have been mapped, at the price of their table pages and of `paid` pages more. */
  ghost predicate Spent(o: Uses, n: nat, o': Uses, n': nat, root: nat, lo: nat, k: nat, paid: nat) {
    GainedFor(o, o', root, lo, k) && n' + paid + Tables(o, root, lo, k) == n
  }

  lemma SpentNone(o: Uses, n: nat, root: nat, lo: nat)
    ensures Spent(o, n, o, n, root, lo, 0, 0)
  {
    GainedNone(o, root, lo);
  }

  lemma SpentNext(o: Uses, n: nat, o1: Uses, n1: nat, o2: Uses, n2: nat, root: nat, lo: nat, k: nat, paid: nat,
      more: nat)
    requires Spent(o, n, o1, n1, root, lo, k, paid)
    requires GainedFor(o1, o2, root, lo + k, 1) && n2 + more + Lacking(o1, root, lo + k) == n1
    ensures Spent(o, n, o2, n2, root, lo, k + 1, paid + more)
  {
    hide GainedFor, Lacking, TablesAt;
    GainedNext(o, o1, o2, root, lo, k);
    LackingIs(o, o1, root, lo, k);
  }

  lemma SpentStuck(o: Uses, n: nat, o1: Uses, n1: nat, root: nat, lo: nat, k: nat, all: nat, paid: nat, more: nat)
    requires Spent(o, n, o1, n1, root, lo, k, paid) && k < all && n1 < more + Lacking(o1, root, lo + k)
    ensures n < paid + more + Tables(o, root, lo, all)
  {
    hide GainedFor, Lacking, TablesAt;
    LackingIs(o, o1, root, lo, k);
    TablesMonotone(o, root, lo, k + 1, all);
  }

  lemma SpentEnd(o: Uses, n: nat, o': Uses, n': nat, root: nat, lo: nat, k: nat, paid: nat)
    requires Spent(o, n, o', n', root, lo, k, paid)
    ensures GainedFor(o, o', root, lo, k) && n' + paid + Tables(o, root, lo, k) == n
  {
  }

  /** A round of `mappages`: after `walk` the page gets mapped. */
  lemma MapSpent(o: Uses, n: nat, o1: Uses, n1: nat, o2: Uses, n2: nat, root: nat, lo: nat, k: nat, q: nat)
    requires Spent(o, n, o1, n1, root, lo, k, 0) && (q in o2 ==> o2[q].Kernel?)
    requires GainedFor(o1, o2, root, lo + k, 1) && n2 + Lacking(o1, root, lo + k) == n1
    ensures Spent(o, n, Owning(o2, q, Leaf(root, lo + k)), n2, root, lo, k + 1, 0)
  {
    hide GainedFor, Lacking, Spent, SameInner;
    var o3 := Owning(o2, q, Leaf(root, lo + k));
    if q in o2 {
      SetUse(o2, q, Leaf(root, lo + k));
      GainedSame(o1, o2, o3, root, lo + k, 1);
    }
    SpentNext(o, n, o1, n1, o3, n2, root, lo, k, 0, 0);
  }

  lemma TablesOne(o: Uses, root: nat, v: nat)
    ensures Tables(o, root, v, 1) == Lacking(o, root, v)
  {
    hide Has;
    assert Tables(o, root, v, 0) == 0;
  }

  /** The first step of `AddPage`, which takes a page, has no effect on the table pages. */
  lemma TakenLacking(m: Memory, o: Uses, m': Memory, o': Uses, q: nat, root: nat, v: nat)
    requires Taken(m, o, m', o', q)
    ensures Lacking(o', root, v) == Lacking(o, root, v)
    ensures forall o2 :: GainedFor(o', o2, root, v, 1) ==> GainedFor(o, o2, root, v, 1)
  {
    TakenSame(m, o, m', o', q);
    hide Has;
  }

  /** The table pages that a walk lacks are the levels at which it finds no valid entry. */
  lemma LackingWalk(m: Memory, o: Uses, root: nat, v: nat)
    requires Trees(m, o) && root in o && o[root].Root? && v < MAXVPN
    ensures Has(o, MidUse(root, v)) <==> MidPage(m, root, v) != 0
    ensures Has(o, LowUse(root, v)) <==> LowPage(m, root, v) != 0
  {
  }
}
