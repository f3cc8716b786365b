/** malloc and free (user/umalloc.c), on memory that is read and written unit by unit. */
module HeapOps {
  import opened HeapRing
  import opened Umalloc

  const UNIT := 16
  const MINCORE := 4096

  /** Units for `nbytes` bytes and the header. */
  function UnitsFor(nbytes: nat): (n: nat)
    ensures n >= 1 && (n - 1) * UNIT >= nbytes && (n - 1) * UNIT < nbytes + UNIT
  {
    (nbytes + UNIT - 1) / UNIT + 1
  }

  class Heap {
    /** Address of the header `base`, below all memory that `sbrk` returns. */
    const base: nat
    var mem: Memory
    /** 0 before the first call of malloc. */
    var freep: nat
    ghost var nodes: set<nat>
    ghost var live: set<nat>
    ghost var owner: map<nat, nat>
    ghost var top: nat

    ghost predicate Valid()
      reads this
    {
      if freep == 0 then base in mem && 0 < base < top && live == {} && owner == map[] && nodes == {}
      else Sound(mem, nodes, live, owner, base, top, {}) && freep in nodes
    }

    constructor (base: nat, top: nat)
      requires 0 < base < top
      ensures Valid() && this.base == base && freep == 0 && live == {} && this.top == top
    {
      this.base := base;
      this.top := top;
      mem := map[base := Header(0, 0)];
      freep, nodes, live, owner := 0, {}, {}, map[];
    }

    /** The program writes a unit of a block it holds, other than the header. */
    method Store(u: nat, content: Header)
      requires Valid() && u in owner && owner[u] in live && owner[u] != u
      modifies this`mem
      ensures Valid() && mem == old(mem)[u := content]
    {
      StoreSound(mem, nodes, live, owner, base, top, u, content);
      mem := mem[u := content];
    }

    /** Steps of free's search for the place of `bp`. */
    ghost function Seek(p: nat, bp: nat): int
      reads this
    {
      if p < bp then bp - p else top - p + bp
    }

    /** The search loop of free. */
    method Locate(bp: nat) returns (p: nat)
      requires Valid() && bp in live
      ensures Place(mem, nodes, base, p, bp)
    {
      hide Tiled, ApartBut;
      BlockUnits(mem, nodes, live, owner, base, top, {}, bp);
      p := freep;
      NextIn(mem, nodes, base, p);
      while !(bp > p && bp < mem[p].ptr)
        invariant p in nodes && p in mem && mem[p].ptr in nodes && base <= p
        decreases Seek(p, bp)
      {
        assert NodeOk(mem, nodes, base, p);
        if p >= mem[p].ptr && (bp > p || bp < mem[p].ptr) {
          break;
        }
        p := mem[p].ptr;
        NextIn(mem, nodes, base, p);
      }
    }

    method Free(ap: nat)
      requires Valid() && ap > 0 && ap - 1 in live
      modifies this
      ensures Valid() && live == old(live) - {ap - 1} && owner.Keys == old(owner).Keys && top == old(top)
      ensures Kept(old(mem), old(owner), mem, owner, live)
      ensures freep != 0 && ap - 1 in owner && FreeAgain(old(mem), mem, nodes, owner, freep, ap - 1, owner[ap - 1])
    {
      hide Sound, Kept, FreeAgain;
      var bp := ap - 1;
      var p := Locate(bp);
      ghost var nodes', owner' := FreeSound(mem, nodes, live, owner, base, top, p, bp);
      var q := mem[p].ptr;
      if bp + mem[bp].size == q {
        mem := mem[bp := Header(mem[q].ptr, mem[bp].size + mem[q].size)];
      } else {
        mem := mem[bp := Header(q, mem[bp].size)];
      }
      if p + mem[p].size == bp {
        mem := mem[p := Header(mem[bp].ptr, mem[p].size + mem[bp].size)];
      } else {
        mem := mem[p := Header(bp, mem[p].size)];
      }
      freep := p;
      nodes, live, owner := nodes', live - {bp}, owner';
    }

    /** morecore: `sbrk` returns the address `grant`, or -1. */
    method Morecore(units: nat, grant: int) returns (p: nat)
      requires Valid() && freep != 0 && units >= 1 && (grant == -1 || grant >= top)
      modifies this
      ensures Valid() && live == old(live) && freep != 0 && Kept(old(mem), old(owner), mem, owner, live)
      ensures p == 0 <==> grant == -1
      ensures p == 0 ==>
                mem == old(mem) && owner == old(owner) && freep == old(freep) && nodes == old(nodes) && top == old(top)
      ensures p != 0 ==>
                p == freep && Extended(old(owner), owner, grant, if units < MINCORE then MINCORE else units)
                && Roomy(mem, nodes, freep, units)
    {
      hide Sound, Kept, FreeAgain, Roomy, Extended, NewOwner, Cleared;
      var nu := units;
      if nu < MINCORE {
        nu := MINCORE;
      }
      KeptSelf(mem, nodes, live, owner, base, top);
      if grant == -1 {
        return 0;
      }
      var hp := grant;
      ghost var m, o, l := mem, owner, live;
      mem := mem + Cleared(hp, nu);
      mem := mem[hp := Header(mem[hp].ptr, nu)];
      GrowSound(m, mem, nodes, live, owner, base, top, hp, nu);
      live, owner, top := live + {hp}, owner + NewOwner(hp, nu), hp + nu;
      ghost var m1, o1 := mem, owner;
      Free(hp + 1);
      assert live == l;
      KeptTrans(m, o, m1, o1, mem, owner, l);
      RoomyAgain(m1, mem, nodes, owner, freep, hp, owner[hp], units);
      ExtendedBy(o, owner, hp, nu);
      return freep;
    }

    /** malloc takes `n` units from node `p`, the one after `prevp`. */
    method Carve(prevp: nat, p: nat, n: nat) returns (ap: nat)
      requires Valid() && freep != 0 && n >= 1 && prevp in nodes && p in nodes && prevp in mem && p in mem
      requires mem[prevp].ptr == p && mem[p].size >= n
      modifies this
      ensures Valid() && freep != 0 && ap > 0 && ap - 1 !in old(live) && live == old(live) + {ap - 1} && ap - 1 in mem
      ensures mem[ap - 1].size == n
      ensures Kept(old(mem), old(owner), mem, owner, old(live)) && owner.Keys == old(owner).Keys
    {
      hide Ring, Tiled, Inside, ApartBut, Kept;
      if mem[p].size == n {
        TakeSound(mem, nodes, live, owner, base, top, prevp, p);
        TakeOther(mem, nodes, base, prevp, p);
        mem := mem[prevp := Header(mem[p].ptr, mem[prevp].size)];
        nodes, live := nodes - {p}, live + {p};
        ap := p + 1;
      } else {
        CutSound(mem, nodes, live, owner, base, top, p, n);
        var t := p + mem[p].size - n;
        owner := CutOwner(owner, p, t);
        mem := Cut(mem, p, n);
        live := live + {t};
        ap := t + 1;
      }
      NextIn(mem, nodes, base, prevp);
      freep := prevp;
    }

    /** malloc. `sbrk`, if called, returns `grant`; `calls` counts the calls. */
    method Malloc(nbytes: nat, grant: int) returns (ap: nat, ghost calls: nat)
      requires Valid() && (grant == -1 || grant >= top) && UnitsFor(nbytes) * UNIT < 0x8000_0000
      modifies this
      ensures Valid() && calls <= 1 && Kept(old(mem), old(owner), mem, owner, old(live))
      ensures calls == 1 <==> NoFit(old(mem), old(nodes), UnitsFor(nbytes))
      ensures ap == 0 <==> calls == 1 && grant == -1
      ensures ap == 0 ==> live == old(live)
      ensures ap != 0 ==>
                ap - 1 !in old(live) && live == old(live) + {ap - 1} && ap - 1 in mem
                && mem[ap - 1].size == UnitsFor(nbytes)
      ensures calls == 0 || ap == 0 ==> owner.Keys == old(owner).Keys
      ensures calls == 1 && ap != 0 ==>
                Extended(old(owner), owner, grant, if UnitsFor(nbytes) < MINCORE then MINCORE else UnitsFor(nbytes))
    {
      hide Sound, Kept, NoFit, Seen, Ahead, Extended, Roomy, Dist;
      var n := UnitsFor(nbytes);
      var prevp := freep;
      if prevp == 0 {
        mem := mem[base := Header(base, 0)];
        freep := base;
        prevp := base;
        nodes := {base};
        InitSound(mem, base, top);
        InitFit(old(mem), n);
        KeptFirst(old(mem), old(owner), mem, owner);
      } else {
        KeptSelf(mem, nodes, live, owner, base, top);
      }
      ghost var m, o, f := mem, owner, nodes;
      calls := 0;
      SearchStart(mem, nodes, live, owner, base, top, freep, n);
      var p := mem[prevp].ptr;
      while true
        invariant Valid() && freep != 0 && live == old(live) && calls <= 1
        invariant Kept(old(mem), old(owner), mem, owner, live)
        invariant prevp in nodes && prevp in mem && mem[prevp].ptr == p && p in nodes && p in mem && p < top
        invariant calls == 0 ==>
                  mem == m && owner == o && nodes == f && Seen(mem, nodes, freep, top, p, n) && top == old(top)
        invariant calls == 1 ==> NoFit(m, f, n) && Ahead(mem, nodes, freep, top, p, n) && grant != -1
        invariant calls == 1 ==> Extended(old(owner), owner, grant, if n < MINCORE then MINCORE else n)
        decreases 1 - calls, Dist(p, freep, top)
      {
        if mem[p].size >= n {
          Fits(mem, nodes, p, n);
          ghost var m1, o1 := mem, owner;
          ap := Carve(prevp, p, n);
          KeptTrans(old(mem), old(owner), m1, o1, mem, owner, old(live));
          ExtendedSame(old(owner), o1, owner, grant, if n < MINCORE then MINCORE else n);
          return;
        }
        if p == freep {
          SearchEnd(mem, nodes, freep, top, n);
          ghost var m1, o1 := mem, owner;
          p := Morecore(n, grant);
          calls := calls + 1;
          if p == 0 {
            return 0, calls;
          }
          KeptTrans(old(mem), old(owner), m1, o1, mem, owner, live);
          SearchStart(mem, nodes, live, owner, base, top, freep, n);
        } else {
          SearchNext(mem, nodes, live, owner, base, top, freep, p, n);
        }
        prevp := p;
        p := mem[p].ptr;
      }
    }
  }

  /** No free block has `n` units. */
  ghost predicate NoFit(mem: Memory, nodes: set<nat>, n: nat) {
    forall x :: x in nodes && x in mem ==> mem[x].size < n
  }

  /** The nodes already seen, those farther from `fp` than `p`, are too small. */
  ghost predicate Seen(mem: Memory, nodes: set<nat>, fp: nat, top: nat, p: nat, n: nat) {
    Below(nodes, top) && p < top && forall x ::
        x in nodes && x in mem && Dist(x, fp, top) > Dist(p, fp, top) ==> mem[x].size < n
  }

  /** A node that is large enough is still to come. */
  ghost predicate Ahead(mem: Memory, nodes: set<nat>, fp: nat, top: nat, p: nat, n: nat) {
    Below(nodes, top) && p < top && exists g ::
        g in nodes && g in mem && Dist(g, fp, top) <= Dist(p, fp, top) && mem[g].size >= n
  }

  lemma SearchStart(mem: Memory, nodes: set<nat>, live: set<nat>, owner: map<nat, nat>, base: nat, top: nat, fp: nat,
      n: nat)
    requires Sound(mem, nodes, live, owner, base, top, {}) && fp in nodes
    ensures fp in mem && mem[fp].ptr in nodes && mem[fp].ptr in mem && mem[fp].ptr < top && fp < top
    ensures Seen(mem, nodes, fp, top, mem[fp].ptr, n)
    ensures (Roomy(mem, nodes, fp, n) ==> Ahead(mem, nodes, fp, top, mem[fp].ptr, n))
  {
    hide Tiled, ApartBut;
    NextIn(mem, nodes, base, fp);
    forall x | x in nodes ensures Dist(x, fp, top) <= Dist(mem[fp].ptr, fp, top) {
      Farthest(mem, nodes, base, fp, top, x);
    }
  }

  lemma SearchNext(mem: Memory, nodes: set<nat>, live: set<nat>, owner: map<nat, nat>, base: nat, top: nat, fp: nat,
      p: nat, n: nat)
    requires Sound(mem, nodes, live, owner, base, top, {}) && fp in nodes && p in nodes && p in mem && p != fp
    requires mem[p].size < n
    ensures mem[p].ptr in nodes && mem[p].ptr in mem && mem[p].ptr < top && p < top
    ensures Dist(mem[p].ptr, fp, top) < Dist(p, fp, top)
    ensures Seen(mem, nodes, fp, top, p, n) ==> Seen(mem, nodes, fp, top, mem[p].ptr, n)
    ensures Ahead(mem, nodes, fp, top, p, n) ==> Ahead(mem, nodes, fp, top, mem[p].ptr, n)
  {
    hide Tiled, ApartBut;
    NextIn(mem, nodes, base, p);
    forall x | x in nodes
      ensures Dist(mem[p].ptr, fp, top) < Dist(p, fp, top)
      ensures Dist(x, fp, top) < Dist(p, fp, top) ==> Dist(x, fp, top) <= Dist(mem[p].ptr, fp, top)
      ensures Dist(x, fp, top) == Dist(p, fp, top) ==> x == p
    {
      Follow(mem, nodes, base, p, fp, top, x);
    }
  }

  lemma SearchEnd(mem: Memory, nodes: set<nat>, fp: nat, top: nat, n: nat)
    requires fp in nodes && fp in mem && mem[fp].size < n && fp < top
    ensures Seen(mem, nodes, fp, top, fp, n) ==> NoFit(mem, nodes, n)
    ensures !Ahead(mem, nodes, fp, top, fp, n)
  {
  }

  lemma Fits(mem: Memory, nodes: set<nat>, p: nat, n: nat)
    requires p in nodes && p in mem && mem[p].size >= n
    ensures !NoFit(mem, nodes, n)
  {
  }

  lemma InitSound(mem: Memory, base: nat, top: nat)
    requires 0 < base < top && base in mem && mem[base] == Header(base, 0)
    ensures Sound(mem, {base}, {}, map[], base, top, {}) && (forall n :: n >= 1 ==> NoFit(mem, {base}, n))
  {
    assert {base} - {base} + {} == {};
    assert NodeOk(mem, {base}, base, base);
  }

  /** `n` units from `hp` on have been added to the heap. */
  ghost predicate Extended(owner: map<nat, nat>, owner': map<nat, nat>, hp: int, n: nat) {
    forall u :: u in owner' <==> u in owner || hp <= u < hp + n
  }

  /** The node `fp` or the one after it has at least `n` units. */
  ghost predicate Roomy(mem: Memory, nodes: set<nat>, fp: nat, n: nat) {
    && fp in nodes && fp in mem
    && (mem[fp].size >= n || (mem[fp].ptr in nodes && mem[fp].ptr in mem && mem[mem[fp].ptr].size >= n))
  }

  lemma RoomyAgain(mem: Memory, mem': Memory, nodes': set<nat>, owner': map<nat, nat>, p: nat, b: nat, g: nat, n: nat)
    requires FreeAgain(mem, mem', nodes', owner', p, b, g) && mem[b].size >= n
    ensures Roomy(mem', nodes', p, n)
  {
  }

  lemma ExtendedBy(owner: map<nat, nat>, owner': map<nat, nat>, hp: nat, n: nat)
    requires owner'.Keys == (owner + NewOwner(hp, n)).Keys
    ensures Extended(owner, owner', hp, n)
  {
    forall u ensures u in owner' <==> u in owner || hp <= u < hp + n {
      assert u in owner' <==> u in (owner + NewOwner(hp, n)).Keys;
    }
  }

  lemma KeptSelf(mem: Memory, nodes: set<nat>, live: set<nat>, owner: map<nat, nat>, base: nat, top: nat)
    requires Sound(mem, nodes, live, owner, base, top, {})
    ensures Kept(mem, owner, mem, owner, live)
  {
  }

  lemma TakeOther(mem: Memory, nodes: set<nat>, base: nat, x: nat, y: nat)
    requires Ring(mem, nodes, base) && x in nodes && y in nodes && x in mem && y in mem && mem[x].ptr == y && y != base
    ensures x != y && base in nodes
  {
    SkipRing(mem, nodes, base, x, y, mem[x].size);
  }

  lemma InitFit(mem: Memory, n: nat)
    ensures NoFit(mem, {}, n)
  {
  }

  lemma KeptFirst(mem: Memory, owner: map<nat, nat>, mem': Memory, owner': map<nat, nat>)
    ensures Kept(mem, owner, mem', owner', {})
  {
  }

  lemma ExtendedSame(owner: map<nat, nat>, owner1: map<nat, nat>, owner2: map<nat, nat>, hp: int, n: nat)
    requires owner2.Keys == owner1.Keys
    ensures Extended(owner, owner1, hp, n) ==> Extended(owner, owner2, hp, n)
  {
  }

  lemma StoreSound(mem: Memory, nodes: set<nat>, live: set<nat>, owner: map<nat, nat>, base: nat, top: nat, u: nat,
      content: Header)
    requires Sound(mem, nodes, live, owner, base, top, {}) && u in owner && owner[u] in live && owner[u] != u
    ensures Sound(mem[u := content], nodes, live, owner, base, top, {})
  {
    var mem' := mem[u := content];
    forall b | b in nodes - {base} + live ensures b != u {
      BlockUnits(mem, nodes, live, owner, base, top, {}, b);
    }
    assert u != base;
    SameSizes(mem, mem', nodes - {base} + live, owner);
    forall z | z in nodes ensures NodeOk(mem', nodes, base, z) {
      assert NodeOk(mem, nodes, base, z);
    }
  }
}
