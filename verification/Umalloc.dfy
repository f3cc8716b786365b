/** The allocator of user/umalloc.c. */
module Umalloc {
  import opened HeapRing

  /** All there is to say of the allocator, except that nodes in `but` may touch the next free block. `live` are the
      blocks handed out. */
  ghost predicate Sound(mem: Memory, nodes: set<nat>, live: set<nat>, owner: map<nat, nat>, base: nat, top: nat,
      but: set<nat>) {
    && Ring(mem, nodes, base) && base in mem && mem[base].size == 0 && base > 0
    && Tiled(mem, nodes - {base} + live, owner) && nodes !! live && Inside(mem, nodes, owner, base, top)
    && ApartBut(mem, nodes, base, but)
  }

  ghost predicate Inside(mem: Memory, nodes: set<nat>, owner: map<nat, nat>, base: nat, top: nat) {
    base < top && Below(nodes, top) && forall u :: u in owner ==> base < u < top && u in mem
  }

  ghost predicate ApartBut(mem: Memory, nodes: set<nat>, base: nat, but: set<nat>) {
    forall p :: p in nodes && p in mem && p != base && p !in but ==> p + mem[p].size != mem[p].ptr
  }

  /** Units of live blocks have kept their content and their owner. */
  ghost predicate Kept(mem: Memory, owner: map<nat, nat>, mem': Memory, owner': map<nat, nat>, live: set<nat>) {
    forall u ::
        u in owner && owner[u] in live ==>
        u in mem && u in mem' && mem'[u] == mem[u] && u in owner' && owner'[u] == owner[u]
  }

  lemma KeptTrans(mem: Memory, owner: map<nat, nat>, mem1: Memory, owner1: map<nat, nat>, mem2: Memory,
      owner2: map<nat, nat>, live: set<nat>)
    requires Kept(mem, owner, mem1, owner1, live) && Kept(mem1, owner1, mem2, owner2, live)
    ensures Kept(mem, owner, mem2, owner2, live)
  {
  }

  /** Free and live blocks lie in the heap, at their own address. */
  lemma BlockUnits(mem: Memory, nodes: set<nat>, live: set<nat>, owner: map<nat, nat>, base: nat, top: nat,
      but: set<nat>, b: nat)
    requires Sound(mem, nodes, live, owner, base, top, but) && (b in live || (b in nodes && b != base))
    ensures b in mem && mem[b].size >= 1 && b in owner && owner[b] == b && base < b && b + mem[b].size <= top
  {
    assert BlockOk(mem, owner, b);
    var last := b + mem[b].size - 1;
    assert last in owner;
  }

  // ---------------------------------------------------------------- free

  lemma LinkSound(mem: Memory, nodes: set<nat>, live: set<nat>, owner: map<nat, nat>, base: nat, top: nat, p: nat,
      b: nat)
    requires Sound(mem, nodes, live, owner, base, top, {}) && b in live && Place(mem, nodes, base, p, b)
    ensures b in mem && Sound(Linked(mem, p, b), nodes + {b}, live - {b}, owner, base, top, {p, b})
    ensures Kept(mem, owner, Linked(mem, p, b), owner, live - {b})
  {
    BlockUnits(mem, nodes, live, owner, base, top, {}, b);
    LinkRing(mem, nodes, base, p, b);
    LinkTiled(mem, nodes - {base} + live, owner, p, b);
    assert nodes + {b} - {base} + (live - {b}) == nodes - {base} + live;
    NodeUnits(mem, nodes, live, owner, base, top, {}, p);
  }

  lemma NodeUnits(mem: Memory, nodes: set<nat>, live: set<nat>, owner: map<nat, nat>, base: nat, top: nat,
      but: set<nat>, p: nat)
    requires Sound(mem, nodes, live, owner, base, top, but) && p in nodes
    ensures p in mem && (p in owner ==> owner[p] !in live)
  {
    assert NodeOk(mem, nodes, base, p);
    if p != base {
      BlockUnits(mem, nodes, live, owner, base, top, but, p);
    }
  }

  lemma AbsorbSound(mem: Memory, nodes: set<nat>, live: set<nat>, owner: map<nat, nat>, base: nat, top: nat,
      but: set<nat>, x: nat, y: nat)
    requires Sound(mem, nodes, live, owner, base, top, but) && x in nodes && x != base && x in mem && y == mem[x].ptr
    requires x + mem[x].size == y && y !in but && x in but
    ensures y in mem && y in nodes && y != base && y in owner
    ensures Sound(Absorbed(mem, x, y), nodes - {y}, live, Moved(owner, y, x), base, top, but - {x})
    ensures Kept(mem, owner, Absorbed(mem, x, y), Moved(owner, y, x), live)
  {
    BlockUnits(mem, nodes, live, owner, base, top, but, x);
    assert NodeOk(mem, nodes, base, x);
    BlockUnits(mem, nodes, live, owner, base, top, but, y);
    SkipRing(mem, nodes, base, x, y, mem[x].size + mem[y].size);
    AbsorbTiled(mem, nodes - {base} + live, owner, x, y);
    assert nodes - {base} + live - {y} == nodes - {y} - {base} + live;
  }

  lemma NotAdjacent(mem: Memory, nodes: set<nat>, live: set<nat>, owner: map<nat, nat>, base: nat, top: nat,
      but: set<nat>, x: nat)
    requires Sound(mem, nodes, live, owner, base, top, but) && x in mem && (x == base || x + mem[x].size != mem[x].ptr)
    ensures Sound(mem, nodes, live, owner, base, top, but - {x})
  {
  }

  /** The headers after block `b` has been put back behind node `p`, merged with its neighbours. */
  function Returned(mem: Memory, p: nat, b: nat): Memory
    requires p in mem && b in mem && mem[p].ptr in mem
  {
    var q := mem[p].ptr;
    var m1 := if b + mem[b].size == q then mem[b := Header(mem[q].ptr, mem[b].size + mem[q].size)]
        else mem[b := Header(q, mem[b].size)];
    if p + m1[p].size == b then m1[p := Header(m1[b].ptr, m1[p].size + m1[b].size)] else m1[p := Header(b, m1[p].size)]
  }

  /** Block `b` has become part of free block `g`, at or next after `p`. */
  ghost predicate FreeAgain(mem: Memory, mem': Memory, nodes': set<nat>, owner': map<nat, nat>, p: nat, b: nat,
      g: nat) {
    && b in mem && p in mem' && b in owner' && g == owner'[b] && g in nodes' && g in mem' && mem'[g].size >= mem[b].size
    && (g == p || mem'[p].ptr == g) && p in nodes'
  }

  /** Node `x` takes the next one over if they touch. */
  lemma MergeSound(mem: Memory, nodes: set<nat>, live: set<nat>, owner: map<nat, nat>, base: nat, top: nat,
      but: set<nat>, x: nat)
    returns (mem': Memory, nodes': set<nat>, owner': map<nat, nat>)
    requires Sound(mem, nodes, live, owner, base, top, but) && x in nodes && x in mem && x in but && mem[x].ptr in mem
    requires x + mem[x].size == mem[x].ptr ==> mem[x].ptr !in but
    ensures Sound(mem', nodes', live, owner', base, top, but - {x}) && Kept(mem, owner, mem', owner', live)
    ensures owner'.Keys == owner.Keys
    ensures
      var y := mem[x].ptr;
      if x != base && x + mem[x].size == y then
        && y != base && mem' == Absorbed(mem, x, y) && nodes' == nodes - {y} && owner' == Moved(owner, y, x)
              && y in owner && owner[y] == y
      else mem' == mem && nodes' == nodes && owner' == owner
  {
    hide Ring, Tiled, ApartBut;
    var y := mem[x].ptr;
    if x != base && x + mem[x].size == y {
      AbsorbSound(mem, nodes, live, owner, base, top, but, x, y);
      BlockUnits(mem, nodes, live, owner, base, top, but, y);
      return Absorbed(mem, x, y), nodes - {y}, Moved(owner, y, x);
    } else {
      NotAdjacent(mem, nodes, live, owner, base, top, but, x);
      return mem, nodes, owner;
    }
  }

  lemma FreeSound(mem: Memory, nodes: set<nat>, live: set<nat>, owner: map<nat, nat>, base: nat, top: nat, p: nat,
      b: nat)
    returns (nodes': set<nat>, owner': map<nat, nat>)
    requires Sound(mem, nodes, live, owner, base, top, {}) && b in live && Place(mem, nodes, base, p, b)
    ensures b in mem && mem[p].ptr in mem && Sound(Returned(mem, p, b), nodes', live - {b}, owner', base, top, {})
    ensures Kept(mem, owner, Returned(mem, p, b), owner', live - {b}) && owner'.Keys == owner.Keys
    ensures FreeAgain(mem, Returned(mem, p, b), nodes', owner', p, b, if b in owner' then owner'[b] else 0)
    ensures b in owner' && p in nodes' && p > 0
  {
    hide Sound, Kept;
    PlaceFacts(mem, nodes, live, owner, base, top, p, b);
    LinkSound(mem, nodes, live, owner, base, top, p, b);
    var m0, live' := Linked(mem, p, b), live - {b};
    var m1, n1, o1 := MergeSound(m0, nodes + {b}, live', owner, base, top, {p, b}, b);
    assert {p, b} - {b} == {p};
    KeptTrans(mem, owner, m0, owner, m1, o1, live');
    BlockUnits(m1, n1, live', o1, base, top, {p}, b);
    var m2, n2, o2 := MergeSound(m1, n1, live', o1, base, top, {p}, p);
    assert {p} - {p} == {};
    KeptTrans(mem, owner, m1, o1, m2, o2, live');
    assert m2 == Returned(mem, p, b);
    return n2, o2;
  }

  lemma PlaceFacts(mem: Memory, nodes: set<nat>, live: set<nat>, owner: map<nat, nat>, base: nat, top: nat, p: nat,
      b: nat)
    requires Sound(mem, nodes, live, owner, base, top, {}) && b in live && Place(mem, nodes, base, p, b)
    ensures p in mem && mem[p].ptr in mem && mem[p].ptr in nodes && b != base && 0 < p
    ensures (p == base ==> mem[p].size == 0)
    ensures b in mem && b !in nodes && mem[b].size >= 1 && mem[p].ptr != b && (mem[p].ptr == p ==> p == base)
    ensures base < b
    ensures b in owner && owner[b] == b
  {
    hide Tiled, ApartBut;
    NextIn(mem, nodes, base, p);
    assert NodeOk(mem, nodes, base, p);
    BlockUnits(mem, nodes, live, owner, base, top, {}, b);
  }

  lemma NextIn(mem: Memory, nodes: set<nat>, base: nat, p: nat)
    requires Ring(mem, nodes, base) && p in nodes
    ensures p in mem && mem[p].ptr in nodes && mem[p].ptr in mem && base in nodes && base <= p
  {
    assert NodeOk(mem, nodes, base, p);
    assert NodeOk(mem, nodes, base, mem[p].ptr);
  }

  // ---------------------------------------------------------------- malloc

  /** The whole of node `y`, next after `x`, is handed out. */
  lemma TakeSound(mem: Memory, nodes: set<nat>, live: set<nat>, owner: map<nat, nat>, base: nat, top: nat, x: nat,
      y: nat)
    requires Sound(mem, nodes, live, owner, base, top, {}) && x in nodes && y in nodes && x in mem && y in mem
    requires mem[x].ptr == y && y != base
    ensures Sound(mem[x := Header(mem[y].ptr, mem[x].size)], nodes - {y}, live + {y}, owner, base, top, {})
    ensures Kept(mem, owner, mem[x := Header(mem[y].ptr, mem[x].size)], owner, live)
  {
    var mem' := mem[x := Header(mem[y].ptr, mem[x].size)];
    SkipRing(mem, nodes, base, x, y, mem[x].size);
    SameSizes(mem, mem', nodes - {base} + live, owner);
    assert nodes - {y} - {base} + (live + {y}) == nodes - {base} + live;
    NodeUnits(mem, nodes, live, owner, base, top, {}, x);
    assert NodeOk(mem, nodes, base, y) && NodeOk(mem, nodes, base, x);
    if x != base {
      Disjoint(mem, nodes - {base} + live, owner, x, y);
    }
  }

  /** The last `n` units of node `p` are handed out. */
  lemma CutSound(mem: Memory, nodes: set<nat>, live: set<nat>, owner: map<nat, nat>, base: nat, top: nat, p: nat,
      n: nat)
    requires Sound(mem, nodes, live, owner, base, top, {}) && p in nodes && p in mem && 1 <= n < mem[p].size
    ensures p + mem[p].size - n in mem && p != base
    ensures
      var t := p + mem[p].size - n;
      && t !in live && t !in nodes && t in owner && owner[t] == p
      && Sound(Cut(mem, p, n), nodes, live + {t}, CutOwner(owner, p, t), base, top, {})
      && Kept(mem, owner, Cut(mem, p, n), CutOwner(owner, p, t), live)
  {
    var t := p + mem[p].size - n;
    assert BlockOk(mem, owner, p);
    assert t in owner;
    CutTiled(mem, nodes - {base} + live, owner, p, n);
    CutRing(mem, nodes, base, p, n);
    assert nodes - {base} + live + {t} == nodes - {base} + (live + {t});
    NodeUnits(mem, nodes, live, owner, base, top, {}, p);
    assert NodeOk(mem, nodes, base, p);
  }

  // ---------------------------------------------------------------- morecore

  /** What the system provides: cleared memory. */
  function Cleared(hp: nat, n: nat): (m: Memory)
    ensures forall u :: u in m <==> hp <= u < hp + n
    decreases n
  {
    if n == 0 then map[] else Cleared(hp, n - 1)[hp + n - 1 := Header(0, 0)]
  }

  /** Memory from the system counts as a live block until it is freed. */
  lemma GrowSound(mem: Memory, mem': Memory, nodes: set<nat>, live: set<nat>, owner: map<nat, nat>, base: nat,
      top: nat, hp: nat, n: nat)
    requires Sound(mem, nodes, live, owner, base, top, {}) && hp >= top && n >= 1
    requires (forall u :: u in mem' <==> u in mem || hp <= u < hp + n) && hp in mem' && mem'[hp].size == n
    requires forall u :: u in mem && u < hp ==> mem'[u] == mem[u]
    ensures hp !in live && hp !in nodes && Sound(mem', nodes, live + {hp}, owner + NewOwner(hp, n), base, hp + n, {})
    ensures Kept(mem, owner, mem', owner + NewOwner(hp, n), live)
  {
    var blocks := nodes - {base} + live;
    forall b | b in blocks ensures b < hp {
      BlockUnits(mem, nodes, live, owner, base, top, {}, b);
    }
    GrowTiled(mem, mem', blocks, owner, hp, n);
    assert blocks + {hp} == nodes - {base} + (live + {hp});
    forall z | z in nodes ensures NodeOk(mem', nodes, base, z) {
      assert NodeOk(mem, nodes, base, z);
    }
  }

  lemma GrowTiled(mem: Memory, mem': Memory, blocks: set<nat>, owner: map<nat, nat>, hp: nat, n: nat)
    requires Tiled(mem, blocks, owner) && n >= 1 && (forall u :: u in owner ==> u < hp)
    requires (forall b :: b in blocks ==> b < hp)
    requires hp in mem' && mem'[hp].size == n && forall b :: b in blocks && b in mem ==> b in mem' && mem'[b] == mem[b]
    ensures Tiled(mem', blocks + {hp}, owner + NewOwner(hp, n))
  {
    NewTiled(mem, mem', blocks, owner, hp, n);
  }

  /** What the invariant says of any two blocks: they do not overlap, and if both are free they do not touch; every
      unit of the heap is in one block. */
  lemma Shape(mem: Memory, nodes: set<nat>, live: set<nat>, owner: map<nat, nat>, base: nat, top: nat, a: nat, b: nat,
      u: nat)
    requires Sound(mem, nodes, live, owner, base, top, {}) && a in nodes - {base} + live && b in nodes - {base} + live
    requires a < b && u in owner
    ensures a in mem && b in mem && a + mem[a].size <= b && (a in nodes && b in nodes ==> a + mem[a].size != b)
    ensures owner[u] in nodes - {base} + live && owner[u] in mem && owner[u] <= u < owner[u] + mem[owner[u]].size
  {
    var blocks := nodes - {base} + live;
    Disjoint(mem, blocks, owner, a, b);
    assert UnitOk(mem, blocks, owner, u);
    BlockUnits(mem, nodes, live, owner, base, top, {}, b);
    if a in nodes && b in nodes {
      NeverAdjacent(mem, nodes, base, owner, blocks, a, b);
    }
  }
}
