/** The buffer cache (kernel/bio.c). `logical` is what the disk holds as far as the users of the cache can tell. */
module Bio {
  import opened Words
  import opened BufList

  datatype Loc = Loc(dev: nat, blockno: nat)

  datatype Buf = Buf(loc: Loc, valid: bool, refcnt: nat, data: Block)

  /** Buffers whose content has changed since it was read or written, by block. */
  type Dirty = map<Loc, nat>

  type Store = map<Loc, Block>

  ghost predicate Faithful(bufs: seq<Buf>, disk: Store, logical: Store, dirty: Dirty) {
    && logical.Keys == disk.Keys
    && (forall b :: 0 <= b < |bufs| && bufs[b].valid ==> bufs[b].loc in logical && logical[bufs[b].loc] == bufs[b].data)
    && (forall l :: l in disk && l !in dirty ==> logical[l] == disk[l])
    && (forall l ::
          l in dirty ==>
          dirty[l] < |bufs| && bufs[dirty[l]].valid && bufs[dirty[l]].loc == l && bufs[dirty[l]].refcnt > 0)
  }

  /** No two buffers hold the same block of a device. Device 0 stands for no block. */
  ghost predicate Unique(bufs: seq<Buf>) {
    forall a, b :: 0 <= a < b < |bufs| && bufs[a].loc == bufs[b].loc ==> bufs[a].loc.dev == 0
  }

  ghost predicate Held(bufs: seq<Buf>, locked: seq<bool>) {
    |locked| == |bufs| && forall b :: 0 <= b < |bufs| && locked[b] ==> bufs[b].refcnt > 0
  }

  class Cache {
    /** Number of buffers, and the index of the list head. */
    const n: nat
    var bufs: seq<Buf>
    var prev: seq<nat>
    var next: seq<nat>
    /** The sleep lock of each buffer. */
    var locked: seq<bool>
    var disk: Store
    /** From the most recently used buffer to the least. */
    ghost var order: seq<nat>
    /** How often brelse has given up the last reference to a buffer, and when it did so last for each buffer. */
    ghost var clock: nat
    ghost var idle: seq<nat>
    ghost var logical: Store
    ghost var dirty: Dirty

    ghost predicate List()
      reads this
    {
      |bufs| == n && Linked(prev, next, order, n) && Complete(order, n) && Aged(order, idle, clock, n)
    }

    ghost predicate Valid()
      reads this
    {
      List() && Faithful(bufs, disk, logical, dirty) && Unique(bufs) && Held(bufs, locked)
    }

    /** binit. */
    constructor (n: nat, disk: Store)
      ensures Valid() && this.n == n && this.disk == disk && logical == disk && dirty == map[]
    {
      this.n := n;
      this.disk := disk;
      bufs := seq(n, i => Buf(Loc(0, 0), false, 0, Zeros(BSIZE)));
      locked := seq(n, i => false);
      prev := seq(n + 1, i => n);
      next := seq(n + 1, i => n);
      order, logical, dirty := [], disk, map[];
      clock, idle := n, seq(n, i => i);
      new;
      hide Aged, Steady;
      AgedNone(idle, n);
      assert Hop(prev, next, order, n, 0);
      var b := 0;
      while b < n
        invariant b <= n && Linked(prev, next, order, n) && (forall x :: x in order <==> 0 <= x < b)
        invariant clock == n && Steady(idle, n) && Aged(order, idle, clock, n)
        invariant bufs == seq(n, i => Buf(Loc(0, 0), false, 0, Zeros(BSIZE))) && locked == seq(n, i => false)
        invariant this.disk == disk && logical == disk && dirty == map[]
      {
        PushFront(prev, next, order, b, n);
        InsertFront(b);
        AgedFront(order, idle, n, b);
        order := [b] + order;
        b := b + 1;
      }
    }

    /** Links buffer `b` in after the head. */
    method InsertFront(b: nat)
      requires |prev| == n + 1 && |next| == n + 1 && b < n && next[n] <= n
      modifies this`prev, this`next
      ensures prev == old(prev)[b := n][old(next)[n] := b] && next == old(next)[b := old(next)[n]][n := b]
    {
      next := next[b := next[n]];
      prev := prev[b := n];
      prev := prev[next[n] := b];
      next := next[n := b];
    }

    /** The first loop of bget, forward from the most recently used buffer. */
    method FindCached(loc: Loc) returns (b: nat)
      requires List()
      ensures b <= n && if b < n then bufs[b].loc == loc else forall x :: 0 <= x < |bufs| ==> bufs[x].loc != loc
    {
      b := next[n];
      ghost var k := 0;
      assert Hop(prev, next, order, n, 0);
      while b != n
        invariant 0 <= k <= |order| && b == Node(order, n, k) && forall j :: 0 <= j < k ==> bufs[order[j]].loc != loc
        decreases |order| - k
      {
        if bufs[b].loc == loc {
          return b;
        }
        assert Hop(prev, next, order, n, k + 1);
        b := next[b];
        k := k + 1;
      }
      NotCached(bufs, order, n, loc);
    }

    /** The second loop of bget, backward from the least recently used buffer. */
    method FindUnused() returns (b: nat)
      requires List()
      ensures b <= n && |idle| == |bufs| == n
      ensures if b < n then bufs[b].refcnt == 0 && LeastRecent(bufs, idle, b)
              else forall x :: 0 <= x < |bufs| ==> bufs[x].refcnt > 0
    {
      hide Aged;
      AgedSize(order, idle, clock, n);
      b := prev[n];
      ghost var i := |order| - 1;
      assert Hop(prev, next, order, n, |order|);
      while b != n
        invariant -1 <= i < |order| && b == Node(order, n, i) && Behind(bufs, order, i)
        decreases i
      {
        if bufs[b].refcnt == 0 {
          OldestLast(bufs, order, idle, clock, n, i);
          return b;
        }
        assert Hop(prev, next, order, n, i);
        b := prev[b];
        i := i - 1;
      }
      AllBusy(bufs, order, n);
    }

    /** bget under the cache lock: the buffer of the block, or else the least recently used buffer that is not in use.
        With `!ok` there is neither, and the kernel panics. */
    method Bget(loc: Loc) returns (ok: bool, b: nat)
      requires Valid() && loc.dev != 0
      modifies this`bufs
      ensures Valid() && |bufs| == |old(bufs)|
      ensures !ok <==> forall x :: 0 <= x < |bufs| ==> old(bufs)[x].loc != loc && old(bufs)[x].refcnt > 0
      ensures !ok ==> bufs == old(bufs)
      ensures ok ==> b < |bufs| && bufs[b].loc == loc && bufs == old(bufs)[b := bufs[b]]
      ensures ok ==> if old(bufs)[b].loc == loc then bufs[b] == old(bufs)[b].(refcnt := old(bufs)[b].refcnt + 1)
                     else
                       && old(bufs)[b].refcnt == 0 && |idle| == |bufs|
                       && (forall x :: 0 <= x < |bufs| && old(bufs)[x].refcnt == 0 ==> idle[b] <= idle[x])
                       && bufs[b] == old(bufs)[b].(loc := loc, valid := false, refcnt := 1)
    {
      hide Faithful, Unique, Held, Linked, Complete, Aged;
      b := FindCached(loc);
      if b != n {
        MoreRefs(bufs, disk, logical, dirty, locked, b);
        bufs := bufs[b := bufs[b].(refcnt := bufs[b].refcnt + 1)];
        return true, b;
      }
      b := FindUnused();
      if b == n {
        return false, 0;
      }
      Recycle(bufs, disk, logical, dirty, locked, b, loc);
      bufs := bufs[b := bufs[b].(loc := loc, valid := false, refcnt := 1)];
      return true, b;
    }

    /** acquiresleep on a buffer that nobody has locked. */
    method Lock(b: nat)
      requires Valid() && b < |bufs| && !locked[b] && bufs[b].refcnt > 0
      modifies this`locked
      ensures Valid() && locked == old(locked)[b := true]
    {
      locked := locked[b := true];
    }

    /** The rest of bread: the buffer holds the block as it is. */
    method Fill(b: nat)
      requires Valid() && b < |bufs| && locked[b] && bufs[b].loc.dev != 0 && bufs[b].loc in disk
      modifies this`bufs
      ensures Valid() && |bufs| == |old(bufs)| && bufs == old(bufs)[b := bufs[b]] && bufs[b].loc == old(bufs)[b].loc
      ensures bufs[b].valid && bufs[b].data == logical[bufs[b].loc] && bufs[b].refcnt == old(bufs)[b].refcnt
    {
      hide Linked, Complete;
      if !bufs[b].valid {
        FillOk(bufs, disk, logical, dirty, locked, b);
        bufs := bufs[b := bufs[b].(data := disk[bufs[b].loc])];
        bufs := bufs[b := bufs[b].(valid := true)];
      }
    }

    /** The holder of the buffer changes its data. */
    method Change(b: nat, data: Block)
      requires Valid() && b < |bufs| && locked[b] && bufs[b].valid && bufs[b].loc.dev != 0
      modifies this`bufs, this`logical, this`dirty
      ensures Valid() && bufs == old(bufs)[b := old(bufs)[b].(data := data)]
      ensures logical == old(logical)[bufs[b].loc := data]
    {
      hide Linked, Complete, Faithful;
      ChangedFaithful(bufs, disk, logical, dirty, b, data);
      bufs := bufs[b := bufs[b].(data := data)];
      logical := logical[bufs[b].loc := data];
      dirty := dirty[bufs[b].loc := b];
    }

    /** bwrite. */
    method Bwrite(b: nat)
      requires Valid() && b < |bufs| && locked[b] && bufs[b].valid && bufs[b].loc.dev != 0
      modifies this`disk, this`dirty
      ensures Valid() && disk == old(disk)[bufs[b].loc := bufs[b].data] && dirty == old(dirty) - {bufs[b].loc}
    {
      hide Linked, Complete, Unique, Held;
      disk := disk[bufs[b].loc := bufs[b].data];
      dirty := dirty - {bufs[b].loc};
    }

    /** brelse. The last user leaves no change behind that is not on disk. */
    method Brelse(b: nat)
      requires Valid() && b < |bufs| && locked[b] && (bufs[b].refcnt == 1 ==> bufs[b].loc !in dirty)
      modifies this`bufs, this`prev, this`next, this`locked, this`order, this`clock, this`idle
      ensures Valid() && bufs == old(bufs)[b := old(bufs)[b].(refcnt := old(bufs)[b].refcnt - 1)]
      ensures locked == old(locked)[b := false] && |old(idle)| == |bufs|
      ensures bufs[b].refcnt > 0 ==> order == old(order) && idle == old(idle) && clock == old(clock)
      ensures bufs[b].refcnt == 0 ==> ToFront(old(order), order, b)
      ensures bufs[b].refcnt == 0 ==> idle == old(idle)[b := old(clock)] && clock == old(clock) + 1
    {
      hide Faithful, Unique, Linked, Complete, Aged;
      AgedSize(order, idle, clock, n);
      LessRefs(bufs, disk, logical, dirty, locked, b);
      locked := locked[b := false];
      bufs := bufs[b := bufs[b].(refcnt := bufs[b].refcnt - 1)];
      if bufs[b].refcnt == 0 {
        MoveToFront(b);
      }
    }

    method MoveToFront(b: nat)
      requires List() && b < n
      modifies this`prev, this`next, this`order, this`clock, this`idle
      ensures List() && ToFront(old(order), order, b)
      ensures |old(idle)| == n && idle == old(idle)[b := old(clock)] && clock == old(clock) + 1
    {
      hide Linked, Aged;
      ghost var a, c := Around(order, n, b);
      assert order == a + [b] + c;
      Unlink(prev, next, a, b, c, n);
      Sized(prev, next, a, b, c, n);
      prev := prev[next[b] := prev[b]];
      next := next[prev[b] := next[b]];
      PushFront(prev, next, a + c, b, n);
      InsertFront(b);
      AgedMoved(a, b, c, idle, clock, n);
      order := [b] + (a + c);
      idle, clock := idle[b := clock], clock + 1;
      assert ToFront(old(order), order, b);
      Reordered(old(order), order, n, b);
    }

    method Bpin(b: nat)
      requires Valid() && b < |bufs|
      modifies this`bufs
      ensures Valid() && bufs == old(bufs)[b := old(bufs)[b].(refcnt := old(bufs)[b].refcnt + 1)]
    {
      hide Faithful, Unique, Held, Linked, Complete;
      MoreRefs(bufs, disk, logical, dirty, locked, b);
      bufs := bufs[b := bufs[b].(refcnt := bufs[b].refcnt + 1)];
    }

    method Bunpin(b: nat)
      requires Valid() && b < |bufs| && bufs[b].refcnt > 0
      requires (bufs[b].refcnt == 1 ==> bufs[b].loc !in dirty && !locked[b])
      modifies this`bufs
      ensures Valid() && bufs == old(bufs)[b := old(bufs)[b].(refcnt := old(bufs)[b].refcnt - 1)]
    {
      hide Linked, Complete;
      bufs := bufs[b := bufs[b].(refcnt := bufs[b].refcnt - 1)];
    }
  }

  /** Buffer `b` has come to the front, the others keep their order. */
  ghost predicate ToFront(order: seq<nat>, order': seq<nat>, b: nat) {
    exists k :: 0 <= k < |order| && order[k] == b && order' == [b] + (order[..k] + order[k + 1..])
  }

  lemma Around(order: seq<nat>, n: nat, b: nat) returns (a: seq<nat>, c: seq<nat>)
    requires Complete(order, n) && b < n
    ensures order == a + [b] + c && |a| < |order| && order[|a|] == b && a == order[..|a|] && c == order[|a| + 1..]
  {
    assert b in order;
    var k :| 0 <= k < |order| && order[k] == b;
    a, c := order[..k], order[k + 1..];
  }

  lemma Sized(prev: seq<nat>, next: seq<nat>, a: seq<nat>, b: nat, c: seq<nat>, n: nat)
    requires Linked(prev, next, a + [b] + c, n)
    ensures |prev| == n + 1 && |next| == n + 1 && b !in a + c
  {
    DistinctWithout(a, b, c, n);
  }

  lemma Reordered(order: seq<nat>, order': seq<nat>, n: nat, b: nat)
    requires Complete(order, n) && ToFront(order, order', b)
    ensures Complete(order', n)
  {
    var k :| 0 <= k < |order| && order[k] == b && order' == [b] + (order[..k] + order[k + 1..]);
    forall x | 0 <= x < n ensures x in order' {
      assert x in order;
      var j :| 0 <= j < |order| && order[j] == x;
      if j < k {
        assert order'[j + 1] == x;
      } else if j > k {
        assert order'[j] == x;
      }
    }
  }

  /** The list is sorted by the time at which the buffers were put in front. */
  ghost predicate Aged(order: seq<nat>, idle: seq<nat>, clock: nat, n: nat) {
    && |idle| == n && (forall x :: 0 <= x < n ==> idle[x] < clock)
    && (forall i :: 0 <= i < |order| ==> order[i] < n)
    && forall i, j :: 0 <= i < j < |order| ==> idle[order[i]] > idle[order[j]]
  }

  lemma AgedSize(order: seq<nat>, idle: seq<nat>, clock: nat, n: nat)
    requires Aged(order, idle, clock, n)
    ensures |idle| == n
  {
  }

  ghost predicate Steady(idle: seq<nat>, n: nat) {
    |idle| == n && forall x :: 0 <= x < n ==> idle[x] == x
  }

  lemma AgedNone(idle: seq<nat>, n: nat)
    requires idle == seq(n, i => i)
    ensures Steady(idle, n) && Aged([], idle, n, n)
  {
  }

  lemma AgedFront(order: seq<nat>, idle: seq<nat>, n: nat, b: nat)
    requires Aged(order, idle, n, n) && Steady(idle, n) && b < n && forall x :: x in order <==> 0 <= x < b
    ensures Aged([b] + order, idle, n, n)
  {
    assert forall i :: 0 <= i < |order| ==> order[i] in order;
  }

  lemma AgedMoved(a: seq<nat>, b: nat, c: seq<nat>, idle: seq<nat>, clock: nat, n: nat)
    requires Aged(a + [b] + c, idle, clock, n) && b !in a + c && b < n
    ensures |idle| == n && Aged([b] + (a + c), idle[b := clock], clock + 1, n)
  {
    var order, rest, idle' := a + [b] + c, a + c, idle[b := clock];
    forall k | 0 <= k < |rest| ensures rest[k] < n && rest[k] != b && idle'[rest[k]] == idle[rest[k]] {
      assert rest[k] == order[if k < |a| then k else k + 1] && rest[k] in rest;
    }
    forall i, j | 0 <= i < j < |rest| ensures idle[rest[i]] > idle[rest[j]] {
      assert rest[i] == order[if i < |a| then i else i + 1] && rest[j] == order[if j < |a| then j else j + 1];
    }
  }

  /** No buffer that is not in use has been so for longer. */
  ghost predicate LeastRecent(bufs: seq<Buf>, idle: seq<nat>, b: nat)
    requires b < |idle| == |bufs|
  {
    forall x :: 0 <= x < |bufs| && bufs[x].refcnt == 0 ==> idle[b] <= idle[x]
  }

  lemma OldestLast(bufs: seq<Buf>, order: seq<nat>, idle: seq<nat>, clock: nat, n: nat, i: nat)
    requires Aged(order, idle, clock, n) && Complete(order, n) && |bufs| == n && i < |order| && order[i] < n
    requires Behind(bufs, order, i)
    ensures LeastRecent(bufs, idle, order[i])
  {
    forall x | 0 <= x < |bufs| && bufs[x].refcnt == 0 ensures idle[order[i]] <= idle[x] {
      assert x in order;
      var j :| 0 <= j < |order| && order[j] == x;
      assert j <= i;
    }
  }

  ghost predicate Behind(bufs: seq<Buf>, order: seq<nat>, i: int) {
    forall j :: i < j < |order| && 0 <= j && order[j] < |bufs| ==> bufs[order[j]].refcnt > 0
  }

  lemma NotCached(bufs: seq<Buf>, order: seq<nat>, n: nat, loc: Loc)
    requires |bufs| == n && Complete(order, n) && Distinct(order, n) && forall j ::
              0 <= j < |order| ==> bufs[order[j]].loc != loc
    ensures forall x :: 0 <= x < n ==> bufs[x].loc != loc
  {
    forall x | 0 <= x < n ensures bufs[x].loc != loc {
      assert x in order;
    }
  }

  lemma AllBusy(bufs: seq<Buf>, order: seq<nat>, n: nat)
    requires |bufs| == n && Complete(order, n) && Distinct(order, n) && forall j ::
              0 <= j < |order| ==> bufs[order[j]].refcnt > 0
    ensures forall x :: 0 <= x < n ==> bufs[x].refcnt > 0
  {
    forall x | 0 <= x < n ensures bufs[x].refcnt > 0 {
      assert x in order;
    }
  }

  lemma MoreRefs(bufs: seq<Buf>, disk: Store, logical: Store, dirty: Dirty, locked: seq<bool>, b: nat)
    requires Faithful(bufs, disk, logical, dirty) && Unique(bufs) && Held(bufs, locked) && b < |bufs|
    ensures var bufs' := bufs[b := bufs[b].(refcnt := bufs[b].refcnt + 1)];
              Faithful(bufs', disk, logical, dirty) && Unique(bufs') && Held(bufs', locked)
  {
  }

  /** A buffer that nobody uses is clean, so it can serve another block. */
  lemma Recycle(bufs: seq<Buf>, disk: Store, logical: Store, dirty: Dirty, locked: seq<bool>, b: nat, loc: Loc)
    requires Faithful(bufs, disk, logical, dirty) && Unique(bufs) && Held(bufs, locked) && b < |bufs|
    requires bufs[b].refcnt == 0
    requires forall x :: 0 <= x < |bufs| ==> bufs[x].loc != loc
    ensures var bufs' := bufs[b := bufs[b].(loc := loc, valid := false, refcnt := 1)];
              Faithful(bufs', disk, logical, dirty) && Unique(bufs') && Held(bufs', locked)
  {
  }

  lemma FillOk(bufs: seq<Buf>, disk: Store, logical: Store, dirty: Dirty, locked: seq<bool>, b: nat)
    requires Faithful(bufs, disk, logical, dirty) && Unique(bufs) && Held(bufs, locked) && b < |bufs| && !bufs[b].valid
    requires bufs[b].loc in disk && bufs[b].loc.dev != 0
    ensures
      var bufs' := bufs[b := bufs[b].(data := disk[bufs[b].loc], valid := true)];
      Faithful(bufs', disk, logical, dirty) && Unique(bufs') && Held(bufs', locked)
          && logical[bufs[b].loc] == disk[bufs[b].loc]
  {
  }

  lemma LessRefs(bufs: seq<Buf>, disk: Store, logical: Store, dirty: Dirty, locked: seq<bool>, b: nat)
    requires Faithful(bufs, disk, logical, dirty) && Unique(bufs) && Held(bufs, locked) && b < |bufs| && locked[b]
    requires (bufs[b].refcnt == 1 ==> bufs[b].loc !in dirty)
    ensures
      var bufs' := bufs[b := bufs[b].(refcnt := bufs[b].refcnt - 1)];
      Faithful(bufs', disk, logical, dirty) && Unique(bufs') && Held(bufs', locked[b := false])
  {
  }

  lemma ChangedFaithful(bufs: seq<Buf>, disk: Store, logical: Store, dirty: Dirty, b: nat, data: Block)
    requires Faithful(bufs, disk, logical, dirty) && Unique(bufs)
    requires b < |bufs| && bufs[b].valid && bufs[b].loc.dev != 0 && bufs[b].refcnt > 0
    ensures Faithful(bufs[b := bufs[b].(data := data)], disk, logical[bufs[b].loc := data], dirty[bufs[b].loc := b])
  {
    var loc := bufs[b].loc;
    var bufs', logical', dirty' := bufs[b := bufs[b].(data := data)], logical[loc := data], dirty[loc := b];
    forall x | 0 <= x < |bufs'| && bufs'[x].valid
      ensures bufs'[x].loc in logical' && logical'[bufs'[x].loc] == bufs'[x].data
    {
      assert bufs[x].loc in logical && (x != b ==> bufs[x].loc != loc);
    }
  }
}
