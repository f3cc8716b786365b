/** The free list of the user-level allocator: a ring of blocks in address order, and the division of the heap into
    blocks. Addresses count units of the size of one header. */
module HeapRing {
  datatype Header = Header(ptr: nat, size: nat)

  /** Every unit of memory, read as a header. */
  type Memory = map<nat, Header>

  // ---------------------------------------------------------------- the ring

  /** `q` is the next node after `p`: the nearest one above it, or the lowest of all after the highest. */
  ghost predicate IsNext(nodes: set<nat>, base: nat, p: nat, q: nat) {
    if p < q then forall x :: x in nodes ==> x <= p || q <= x
    else q == base && forall x :: x in nodes ==> x <= p
  }

  ghost predicate Ring(mem: Memory, nodes: set<nat>, base: nat) {
    base in nodes && forall p {:trigger NodeOk(mem, nodes, base, p)} :: p in nodes ==> NodeOk(mem, nodes, base, p)
  }

  ghost predicate NodeOk(mem: Memory, nodes: set<nat>, base: nat, p: nat) {
    base <= p && p in mem && mem[p].ptr in nodes && IsNext(nodes, base, p, mem[p].ptr)
  }

  /** Steps from `x` round the ring to `fp`, measured in addresses, with all nodes below `top`. */
  ghost function Dist(x: nat, fp: nat, top: nat): nat
    requires x < top
  {
    if x <= fp then fp - x else top + fp - x
  }

  ghost predicate Below(nodes: set<nat>, top: nat) {
    forall x :: x in nodes ==> x < top
  }

  /** Following a link comes closer to `fp` and skips no node. */
  lemma Follow(mem: Memory, nodes: set<nat>, base: nat, p: nat, fp: nat, top: nat, g: nat)
    requires Ring(mem, nodes, base) && Below(nodes, top) && p in nodes && fp in nodes && p != fp && g in nodes
    ensures p in mem && mem[p].ptr in nodes && Dist(mem[p].ptr, fp, top) < Dist(p, fp, top)
    ensures Dist(g, fp, top) < Dist(p, fp, top) ==> Dist(g, fp, top) <= Dist(mem[p].ptr, fp, top)
  {
    assert NodeOk(mem, nodes, base, p) && NodeOk(mem, nodes, base, fp) && NodeOk(mem, nodes, base, g);
  }

  /** The node after `fp` is the farthest from it. */
  lemma Farthest(mem: Memory, nodes: set<nat>, base: nat, fp: nat, top: nat, g: nat)
    requires Ring(mem, nodes, base) && Below(nodes, top) && fp in nodes && g in nodes
    ensures fp in mem && mem[fp].ptr in nodes && Dist(g, fp, top) <= Dist(mem[fp].ptr, fp, top)
  {
    assert NodeOk(mem, nodes, base, fp) && NodeOk(mem, nodes, base, g);
  }

  // ---------------------------------------------------------------- blocks

  /** The units of the heap are divided among the blocks: `owner` says which block a unit is in. */
  ghost predicate Tiled(mem: Memory, blocks: set<nat>, owner: map<nat, nat>) {
    && (forall b {:trigger BlockOk(mem, owner, b)} :: b in blocks ==> BlockOk(mem, owner, b))
    && (forall u {:trigger UnitOk(mem, blocks, owner, u)} :: u in owner ==> UnitOk(mem, blocks, owner, u))
  }

  ghost predicate BlockOk(mem: Memory, owner: map<nat, nat>, b: nat) {
    b in mem && mem[b].size >= 1 && forall u :: b <= u < b + mem[b].size ==> u in owner && owner[u] == b
  }

  ghost predicate UnitOk(mem: Memory, blocks: set<nat>, owner: map<nat, nat>, u: nat)
    requires u in owner
  {
    owner[u] in blocks && owner[u] in mem && owner[u] <= u < owner[u] + mem[owner[u]].size
  }

  /** No free block ends where the next one begins. */
  ghost predicate Apart(mem: Memory, nodes: set<nat>, base: nat) {
    forall p :: p in nodes && p in mem && p != base ==> p + mem[p].size != mem[p].ptr
  }

  /** So no free block ends where any other begins. */
  lemma NeverAdjacent(mem: Memory, nodes: set<nat>, base: nat, owner: map<nat, nat>, blocks: set<nat>, p: nat, q: nat)
    requires Ring(mem, nodes, base) && Tiled(mem, blocks, owner)
    requires (forall x :: x in nodes && x != base ==> x in blocks) && Apart(mem, nodes, base)
    requires p in nodes && q in nodes && p != base && q != base
    ensures p in mem && p + mem[p].size != q
  {
    assert NodeOk(mem, nodes, base, p) && NodeOk(mem, nodes, base, q);
    var n := mem[p].ptr;
    assert BlockOk(mem, owner, p);
    assert n != base ==> BlockOk(mem, owner, n) && n in owner && owner[n] == n;
  }

  // ---------------------------------------------------------------- linking in and absorbing

  function Linked(mem: Memory, p: nat, b: nat): Memory
    requires p in mem && b in mem
  {
    mem[b := Header(mem[p].ptr, mem[b].size)][p := Header(b, mem[p].size)]
  }

  /** The place of a block in the ring. */
  ghost predicate Place(mem: Memory, nodes: set<nat>, base: nat, p: nat, b: nat) {
    p in nodes && p in mem && p < b && (b < mem[p].ptr || mem[p].ptr <= p)
  }

  lemma LinkRing(mem: Memory, nodes: set<nat>, base: nat, p: nat, b: nat)
    requires Ring(mem, nodes, base) && Place(mem, nodes, base, p, b) && b in mem && b !in nodes
    ensures Ring(Linked(mem, p, b), nodes + {b}, base)
  {
    var mem', nodes' := Linked(mem, p, b), nodes + {b};
    assert NodeOk(mem, nodes, base, p);
    forall x | x in nodes' ensures NodeOk(mem', nodes', base, x) {
      if x != b {
        assert NodeOk(mem, nodes, base, x);
      }
    }
  }

  lemma LinkTiled(mem: Memory, blocks: set<nat>, owner: map<nat, nat>, p: nat, b: nat)
    requires Tiled(mem, blocks, owner) && p in mem && b in mem && p != b
    ensures Tiled(Linked(mem, p, b), blocks, owner)
  {
    SameSizes(mem, Linked(mem, p, b), blocks, owner);
  }

  lemma SameSizes(mem: Memory, mem': Memory, blocks: set<nat>, owner: map<nat, nat>)
    requires Tiled(mem, blocks, owner) && forall b ::
              b in blocks && b in mem ==> b in mem' && mem'[b].size == mem[b].size
    ensures Tiled(mem', blocks, owner)
  {
    forall b | b in blocks ensures BlockOk(mem', owner, b) {
      assert BlockOk(mem, owner, b);
    }
    forall u | u in owner ensures UnitOk(mem', blocks, owner, u) {
      assert UnitOk(mem, blocks, owner, u);
    }
  }

  /** Node `x` takes over the next node `y`. */
  function Absorbed(mem: Memory, x: nat, y: nat): Memory
    requires x in mem && y in mem
  {
    mem[x := Header(mem[y].ptr, mem[x].size + mem[y].size)]
  }

  ghost function Moved(owner: map<nat, nat>, y: nat, x: nat): map<nat, nat> {
    map u | u in owner :: if owner[u] == y then x else owner[u]
  }

  /** A node drops out of the ring when the one before it is linked past it. */
  lemma SkipRing(mem: Memory, nodes: set<nat>, base: nat, x: nat, y: nat, size: nat)
    requires Ring(mem, nodes, base) && x in nodes && y in nodes && x in mem && y in mem && mem[x].ptr == y && y != base
    ensures Ring(mem[x := Header(mem[y].ptr, size)], nodes - {y}, base) && x < y
  {
    var mem', nodes' := mem[x := Header(mem[y].ptr, size)], nodes - {y};
    assert NodeOk(mem, nodes, base, x) && NodeOk(mem, nodes, base, y);
    forall z | z in nodes' ensures NodeOk(mem', nodes', base, z) {
      assert NodeOk(mem, nodes, base, z);
    }
  }

  lemma AbsorbTiled(mem: Memory, blocks: set<nat>, owner: map<nat, nat>, x: nat, y: nat)
    requires Tiled(mem, blocks, owner) && x in blocks && y in blocks && x in mem && y in mem && x != y
    requires x + mem[x].size == y
    ensures Tiled(Absorbed(mem, x, y), blocks - {y}, Moved(owner, y, x))
  {
    var mem', blocks', owner' := Absorbed(mem, x, y), blocks - {y}, Moved(owner, y, x);
    assert BlockOk(mem, owner, x) && BlockOk(mem, owner, y);
    forall b | b in blocks' ensures BlockOk(mem', owner', b) {
      assert BlockOk(mem, owner, b);
    }
    forall u | u in owner' ensures UnitOk(mem', blocks', owner', u) {
      assert UnitOk(mem, blocks, owner, u);
    }
  }

  // ---------------------------------------------------------------- cutting a block

  /** Block `p` keeps its first part; the last `n` units are block `p + mem[p].size - n`. */
  function Cut(mem: Memory, p: nat, n: nat): Memory
    requires p in mem && n < mem[p].size && p + mem[p].size - n in mem
  {
    var t := p + mem[p].size - n;
    mem[p := Header(mem[p].ptr, mem[p].size - n)][t := Header(mem[t].ptr, n)]
  }

  ghost function CutOwner(owner: map<nat, nat>, p: nat, t: nat): map<nat, nat> {
    map u | u in owner :: if owner[u] == p && u >= t then t else owner[u]
  }

  lemma NotABlock(mem: Memory, blocks: set<nat>, owner: map<nat, nat>, p: nat, t: nat)
    requires Tiled(mem, blocks, owner) && p in mem && p < t < p + mem[p].size && BlockOk(mem, owner, p)
    ensures t in owner && owner[t] == p && t !in blocks
  {
    assert t in blocks ==> BlockOk(mem, owner, t);
  }

  lemma CutKeys(mem: Memory, owner: map<nat, nat>, p: nat, n: nat)
    requires p in mem && n < mem[p].size && p + mem[p].size - n in mem
    ensures CutOwner(owner, p, p + mem[p].size - n).Keys == owner.Keys
  {
  }

  lemma CutBlock(mem: Memory, owner: map<nat, nat>, p: nat, n: nat, b: nat)
    requires BlockOk(mem, owner, p) && 1 <= n < mem[p].size && p + mem[p].size - n in mem
    requires b != p + mem[p].size - n ==> BlockOk(mem, owner, b)
    ensures BlockOk(Cut(mem, p, n), CutOwner(owner, p, p + mem[p].size - n), b)
  {
  }

  lemma CutUnit(mem: Memory, blocks: set<nat>, owner: map<nat, nat>, p: nat, n: nat, u: nat)
    requires BlockOk(mem, owner, p) && 1 <= n < mem[p].size && p + mem[p].size - n in mem
    requires u in owner && UnitOk(mem, blocks, owner, u) && p + mem[p].size - n !in blocks
    ensures
      var t := p + mem[p].size - n;
      u in CutOwner(owner, p, t) && UnitOk(Cut(mem, p, n), blocks + {t}, CutOwner(owner, p, t), u)
  {
  }

  lemma CutTiled(mem: Memory, blocks: set<nat>, owner: map<nat, nat>, p: nat, n: nat)
    requires Tiled(mem, blocks, owner) && p in blocks && p in mem && 1 <= n < mem[p].size && p + mem[p].size - n in mem
    ensures var t := p + mem[p].size - n; t !in blocks && Tiled(Cut(mem, p, n), blocks + {t}, CutOwner(owner, p, t))
  {
    var t := p + mem[p].size - n;
    var mem', blocks', owner' := Cut(mem, p, n), blocks + {t}, CutOwner(owner, p, t);
    hide BlockOk, UnitOk, Cut, CutOwner;
    assert BlockOk(mem, owner, p);
    NotABlock(mem, blocks, owner, p, t);
    CutKeys(mem, owner, p, n);
    forall b | b in blocks' ensures BlockOk(mem', owner', b) {
      assert b != t ==> BlockOk(mem, owner, b);
      CutBlock(mem, owner, p, n, b);
    }
    forall u | u in owner' ensures UnitOk(mem', blocks', owner', u) {
      assert UnitOk(mem, blocks, owner, u);
      CutUnit(mem, blocks, owner, p, n, u);
    }
  }

  lemma CutRing(mem: Memory, nodes: set<nat>, base: nat, p: nat, n: nat)
    requires Ring(mem, nodes, base) && p in mem && n < mem[p].size && p + mem[p].size - n in mem
    ensures Ring(Cut(mem, p, n), nodes, base)
  {
    forall z | z in nodes ensures NodeOk(Cut(mem, p, n), nodes, base, z) {
      assert NodeOk(mem, nodes, base, z);
    }
  }

  /** Two blocks do not overlap. */
  lemma Disjoint(mem: Memory, blocks: set<nat>, owner: map<nat, nat>, a: nat, b: nat)
    requires Tiled(mem, blocks, owner) && a in blocks && b in blocks && a < b
    ensures a in mem && a + mem[a].size <= b
  {
    assert BlockOk(mem, owner, a) && BlockOk(mem, owner, b);
    assert owner[b] == b;
  }

  // ---------------------------------------------------------------- new memory

  ghost function NewOwner(hp: nat, n: nat): map<nat, nat> {
    map u {:trigger Owned(hp, u)} | hp <= u < hp + n :: Owned(hp, u)
  }

  ghost function Owned(hp: nat, u: nat): nat {
    hp
  }

  lemma NewTiled(mem: Memory, mem': Memory, blocks: set<nat>, owner: map<nat, nat>, hp: nat, n: nat)
    requires Tiled(mem, blocks, owner) && n >= 1 && (forall u :: u in owner ==> u < hp)
    requires (forall b :: b in blocks && b in mem ==> b in mem' && mem'[b].size == mem[b].size) && hp in mem'
    requires mem'[hp].size == n && hp !in blocks
    ensures Tiled(mem', blocks + {hp}, owner + NewOwner(hp, n))
  {
    var blocks', owner' := blocks + {hp}, owner + NewOwner(hp, n);
    forall b | b in blocks' ensures BlockOk(mem', owner', b) {
      if b != hp {
        assert BlockOk(mem, owner, b);
      }
    }
    forall u | u in owner' ensures UnitOk(mem', blocks', owner', u) {
      if u in owner {
        assert UnitOk(mem, blocks, owner, u);
      }
    }
  }
}
