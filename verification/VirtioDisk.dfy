/** The disk driver (kernel/virtio_disk.c). Each method is one critical section under the driver's lock, or one step of
    the device; any interleaving of them is a run. */
module VirtioDisk {
  import opened VirtQueue

  class Disk {
    var free: seq<bool>
    var desc: seq<Desc>
    var ops: seq<Op>
    var info: seq<Info>
    /** The disk flag of each buffer: the device owns it. */
    var disk: map<nat, bool>

    var availRing: seq<nat>
    var availIdx: nat
    var usedRing: seq<nat>
    /** used->idx, advanced by the device. */
    var usedIdx: nat
    /** used_idx, advanced by the driver. */
    var seenIdx: nat
    /** How far the device has read the avail ring. */
    var devIdx: nat

    ghost var reqs: Requests
    ghost var slots: seq<Slot>
    ghost var availQ: seq<nat>
    ghost var usedQ: seq<nat>

    ghost predicate Tables()
      reads this
    {
      Partition(free, slots, reqs) && Chains(desc, ops, reqs) && Zeroed(desc, free) && Buffers(info, disk, reqs)
    }

    ghost predicate Rings()
      reads this
    {
      && Queue(availQ, availRing, devIdx, reqs, Posted) && availIdx == (devIdx + |availQ|) % WRAP
      && Queue(usedQ, usedRing, seenIdx, reqs, Completed) && usedIdx == (seenIdx + |usedQ|) % WRAP
    }

    ghost predicate Valid()
      reads this
    {
      Tables() && Rings()
    }

    constructor ()
      ensures Valid() && reqs == map[]
    {
      free := [true, true, true, true, true, true, true, true];
      desc := [ZERO, ZERO, ZERO, ZERO, ZERO, ZERO, ZERO, ZERO];
      var op, none := Op(0, 0, 0), Info(0, 0);
      ops := [op, op, op, op, op, op, op, op];
      info := [none, none, none, none, none, none, none, none];
      slots := [Unused, Unused, Unused, Unused, Unused, Unused, Unused, Unused];
      availRing, usedRing := [0, 0, 0, 0, 0, 0, 0, 0], [0, 0, 0, 0, 0, 0, 0, 0];
      availIdx, usedIdx, seenIdx, devIdx := 0, 0, 0, 0;
      disk, reqs, availQ, usedQ := map[], map[], [], [];
    }

    // -------------------------------------------------------------- descriptors

    method AllocDesc() returns (i: int)
      requires |free| == NUM
      modifies this`free
      ensures if i == -1 then free == old(free) && forall j :: 0 <= j < NUM ==> !free[j]
              else 0 <= i < NUM && old(free)[i] && free == old(free)[i := false]
    {
      var j := 0;
      while j < NUM
        invariant j <= NUM && free == old(free) && forall k :: 0 <= k < j ==> !free[k]
      {
        if free[j] {
          free := free[j := false];
          return j;
        }
        j := j + 1;
      }
      return -1;
    }

    method FreeDesc(i: nat)
      requires |free| == NUM && |desc| == NUM && i < NUM && !free[i]
      modifies this`free, this`desc
      ensures free == old(free)[i := true] && desc == old(desc)[i := ZERO]
    {
      desc := desc[i := ZERO];
      free := free[i := true];
    }

    /** alloc3_desc: on failure everything is as before. */
    method Alloc3Desc() returns (r: int, idx: seq<nat>)
      requires Zeroed(desc, free)
      modifies this`free, this`desc
      ensures r == 0 || r == -1
      ensures r == -1 ==> free == old(free) && desc == old(desc) && FewFree(free)
      ensures r == 0 ==> |idx| == 3 && AllFree(old(free), idx) && free == Taken(old(free), idx) && desc == old(desc)
    {
      idx := [];
      var i := 0;
      while i < 3
        invariant i == |idx| && i <= 3 && |free| == NUM && desc == old(desc) && AllFree(old(free), idx)
        invariant free == Taken(old(free), idx)
      {
        var d := AllocDesc();
        if d < 0 {
          NoneLeft(old(free), idx);
          ghost var taken := free;
          var j := 0;
          while j < i
            invariant j <= i && |free| == NUM && desc == old(desc) && free == Returned(taken, idx[..j])
          {
            ReturnNext(old(free), idx, j);
            FreeDesc(idx[j]);
            assert desc == old(desc);
            assert idx[..j + 1] == idx[..j] + [idx[j]];
            j := j + 1;
          }
          assert idx[..i] == idx;
          Restored(old(free), idx);
          return -1, idx;
        }
        TakeNext(old(free), idx, d);
        idx := idx + [d];
        i := i + 1;
      }
      return 0, idx;
    }

    /** free_chain: exactly the three descriptors of the request. */
    method FreeChain(h: nat, ghost r: Request)
      requires |free| == NUM && Chain(desc, ops, h, r) && h != r.i1 && h != r.i2 && r.i1 != r.i2
      requires !free[h] && !free[r.i1] && !free[r.i2]
      modifies this`free, this`desc
      ensures free == old(free)[h := true][r.i1 := true][r.i2 := true]
      ensures desc == old(desc)[h := ZERO][r.i1 := ZERO][r.i2 := ZERO]
    {
      var i := h;
      ghost var k := 0;
      while true
        invariant 0 <= k < 3 && i == Nth(h, r, k) && |free| == NUM && |desc| == NUM
        invariant free ==
                  (if k == 0 then old(free) else if k == 1 then old(free)[h := true]
                  else old(free)[h := true][r.i1 := true])
        invariant desc ==
                  (if k == 0 then old(desc) else if k == 1 then old(desc)[h := ZERO]
                  else old(desc)[h := ZERO][r.i1 := ZERO])
        decreases 3 - k
      {
        var flag, nxt := desc[i].flags, desc[i].next;
        FreeDesc(i);
        if flag % 2 == 1 {
          i := nxt;
          k := k + 1;
        } else {
          break;
        }
      }
    }

    // -------------------------------------------------------------- the driver

    /** Fills in the three descriptors, the command and the bookkeeping of a request. */
    method Format(h: nat, i1: nat, i2: nat, b: nat, blockno: nat, write: bool)
      requires |ops| == NUM && |desc| == NUM && |info| == NUM && h < NUM && i1 < NUM && i2 < NUM && h != i1 && h != i2
      requires i1 != i2
      modifies this`ops, this`desc, this`info, this`disk
      ensures ops == NewOps(old(ops), h, blockno, write) && desc == NewDesc(old(desc), h, i1, i2, b, write)
      ensures info == old(info)[h := Info(b, 0xff)] && disk == old(disk)[b := true]
    {
      ops := ops[h := Op(if write then T_OUT else T_IN, 0, blockno * BLOCK_SECTORS)];
      desc := desc[h := Desc(Command(h), 16, F_NEXT, i1)];
      desc := desc[i1 := Desc(DataOf(b), 1024, if write then 0 else F_WRITE, i2)];
      desc := desc[i1 := desc[i1].(flags := desc[i1].flags + F_NEXT)];
      info := info[h := Info(info[h].b, 0xff)];
      desc := desc[i2 := Desc(StatusOf(h), 1, F_WRITE, 0)];
      disk := disk[b := true];
      info := info[h := Info(b, info[h].status)];
    }

    /** virtio_disk_rw up to the point where it waits. With `!ok` there were not three free descriptors: nothing has
        changed and the caller sleeps until some are freed. */
    method Submit(b: nat, blockno: nat, write: bool) returns (ok: bool, h: nat, ghost i1: nat, ghost i2: nat)
      requires Valid() && b != 0 && forall g :: g in reqs ==> reqs[g].b != b
      modifies this`free, this`desc, this`ops, this`info, this`disk, this`slots, this`reqs, this`availRing,
          this`availIdx, this`availQ
      ensures Valid()
      ensures ok <==> !FewFree(old(free))
      ensures !ok ==>
                && free == old(free) && desc == old(desc) && ops == old(ops) && info == old(info) && disk == old(disk)
                && reqs == old(reqs) && slots == old(slots)
                && availRing == old(availRing) && availIdx == old(availIdx) && availQ == old(availQ)
      ensures ok ==>
                h !in old(reqs) && reqs == old(reqs)[h := Request(b, blockno, write, i1, i2, Posted, 0)]
                && disk == old(disk)[b := true]
    {
      hide Queue, Partition, Chains, Zeroed, Buffers, AllFree, Taken, FewFree, NewOps, NewDesc, Less, NewSlots;
      Sizes(free, slots, reqs, desc, ops, info, disk);
      var r, idx := Alloc3Desc();
      if r != 0 {
        return false, 0, 0, 0;
      }
      ThreeOf(old(free), idx);
      h, i1, i2 := idx[0], idx[1], idx[2];
      Format(h, idx[1], idx[2], b, blockno, write);
      ghost var req := Request(b, blockno, write, i1, i2, Posted, 0);
      AddParts(old(free), slots, reqs, h, req);
      AddChain(old(free), slots, desc, old(desc), old(ops), reqs, h, req);
      AddBuffer(old(info), old(disk), reqs, h, req);
      slots := NewSlots(slots, h, i1, i2);
      Announce(h, req);
      ok := true;
    }

    /** Puts the request into the avail ring. */
    method Announce(h: nat, ghost req: Request)
      requires Rings() && InTable(reqs) && h < NUM && h !in reqs && req.stage == Posted
      modifies this`availRing, this`availIdx, this`availQ, this`reqs
      ensures Rings() && reqs == old(reqs)[h := req]
    {
      hide Queue;
      NotQueued(availQ, availRing, devIdx, reqs, Posted, h);
      RoomFor(availQ, availRing, devIdx, reqs, Posted, h);
      Push(availQ, availRing, devIdx, reqs, reqs[h := req], Posted, h);
      Stay(usedQ, usedRing, seenIdx, reqs, reqs[h := req], Completed);
      IndexApart(devIdx, |availQ|);
      NextSum(devIdx, |availQ|);
      availRing := availRing[availIdx % NUM := h];
      availIdx := (availIdx + 1) % WRAP;
      reqs, availQ := reqs[h := req], availQ + [h];
    }

    // -------------------------------------------------------------- the device

    /** The device reads the next entry of the avail ring. What it finds there is what the caller asked for: the place
        on the disk, the buffer, and whether the device fills the buffer. */
    method DeviceFetch() returns (h: nat, command: Op, b: nat, len: nat, fills: bool)
      requires Valid() && devIdx != availIdx
      modifies this`devIdx, this`reqs, this`availQ
      ensures Valid() && h in old(reqs) && old(reqs)[h].stage == Posted
      ensures reqs == old(reqs)[h := old(reqs)[h].(stage := Fetched)]
      ensures command == Op(if reqs[h].write then T_OUT else T_IN, 0, reqs[h].blockno * BLOCK_SECTORS) && b == reqs[h].b
      ensures command.sector * 512 == reqs[h].blockno * 1024 && len == 1024
      ensures fills == !reqs[h].write && command.kind == if reqs[h].write then 1 else 0
    {
      hide Queue, Partition, Chains, Zeroed, Buffers;
      Sizes(free, slots, reqs, desc, ops, info, disk);
      Front(availQ, availRing, devIdx, availIdx, reqs, Posted);
      h := availRing[devIdx % NUM];
      ghost var r' := reqs[h].(stage := Fetched);
      ChainAt(desc, ops, reqs, h);
      command := ops[h];
      var data := desc[desc[h].next];
      b, len, fills := data.addr.b, data.len, data.flags / 2 % 2 == 1;
      SameTables(free, slots, desc, ops, reqs, h, r');
      SameBuffers(info, disk, reqs, h, r');
      Served(availQ, availRing, devIdx, availIdx, reqs, Posted, h, r');
      StayAt(usedQ, usedRing, seenIdx, reqs, h, r', Completed);
      devIdx := (devIdx + 1) % WRAP;
      reqs, availQ := reqs[h := r'], availQ[1..];
    }

    /** The device completes any request it has read, in any order. */
    method DeviceComplete(h: nat)
      requires Valid() && h in reqs && reqs[h].stage == Fetched
      modifies this`info, this`usedRing, this`usedIdx, this`reqs, this`usedQ
      ensures Valid() && reqs == old(reqs)[h := old(reqs)[h].(stage := Completed)]
    {
      hide Queue, Partition, Chains, Zeroed, Buffers;
      ghost var r' := reqs[h].(stage := Completed);
      HeadsIn(free, slots, reqs);
      SameTables(free, slots, desc, ops, reqs, h, r');
      StatusSet(info, disk, reqs, h, r');
      Completes(availQ, availRing, devIdx, usedQ, usedRing, seenIdx, reqs, h, r');
      info := info[h := info[h].(status := 0)];
      usedRing := usedRing[usedIdx % NUM := h];
      usedIdx := (usedIdx + 1) % WRAP;
      reqs, usedQ := reqs[h := r'], usedQ + [h];
    }

    // -------------------------------------------------------------- interrupts

    /** One round of virtio_disk_intr: one completed request clears the flag of its own buffer. */
    method IntrOne() returns (ghost h: nat)
      requires Valid() && seenIdx != usedIdx
      modifies this`disk, this`seenIdx, this`reqs, this`usedQ
      ensures Valid() && h in old(reqs) && old(reqs)[h].stage == Completed
      ensures reqs == old(reqs)[h := old(reqs)[h].(stage := Done, cleared := old(reqs)[h].cleared + 1)]
      ensures disk == old(disk)[reqs[h].b := false] && |usedQ| == |old(usedQ)| - 1
    {
      hide Queue, Partition, Chains, Zeroed, Buffers;
      Sizes(free, slots, reqs, desc, ops, info, disk);
      Front(usedQ, usedRing, seenIdx, usedIdx, reqs, Completed);
      var id := usedRing[seenIdx % NUM];
      BufferAt(info, disk, reqs, id);
      // otherwise panic("virtio_disk_intr status")
      assert info[id].status == 0;
      var b := info[id].b;
      ghost var r' := reqs[id].(stage := Done, cleared := reqs[id].cleared + 1);
      SameTables(free, slots, desc, ops, reqs, id, r');
      FlagCleared(info, disk, reqs, id, r');
      Served(usedQ, usedRing, seenIdx, usedIdx, reqs, Completed, id, r');
      StayAt(availQ, availRing, devIdx, reqs, id, r', Posted);
      disk := disk[b := false];
      seenIdx := (seenIdx + 1) % WRAP;
      h, reqs, usedQ := id, reqs[id := r'], usedQ[1..];
    }

    /** virtio_disk_intr with the device at rest: all completed requests are done, no others are touched. */
    method Intr()
      requires Valid()
      modifies this`disk, this`seenIdx, this`reqs, this`usedQ
      ensures Valid() && usedQ == [] && reqs.Keys == old(reqs).Keys
      ensures forall h :: h in reqs ==>
                reqs[h] == if old(reqs)[h].stage == Completed then old(reqs)[h].(stage := Done, cleared := 1)
                    else old(reqs)[h]
    {
      hide Queue, Partition, Chains, Zeroed, Buffers;
      QueueSizes(usedQ, usedRing, seenIdx, reqs, Completed);
      IndexApart(seenIdx, |usedQ|);
      while seenIdx != usedIdx
        invariant Valid() && reqs.Keys == old(reqs).Keys && (seenIdx == usedIdx <==> usedQ == [])
        invariant forall h :: h in reqs ==>
                    reqs[h] == old(reqs)[h]
                        || (old(reqs)[h].stage == Completed && reqs[h] == old(reqs)[h].(stage := Done, cleared := 1))
        decreases |usedQ|
      {
        BufferAll(info, disk, reqs);
        var _ := IntrOne();
        QueueSizes(usedQ, usedRing, seenIdx, reqs, Completed);
        IndexApart(seenIdx, |usedQ|);
      }
      NoneAt(usedRing, seenIdx, reqs, Completed);
    }

    /** The end of virtio_disk_rw, when the flag of its buffer is clear. */
    method Finish(h: nat)
      requires Valid() && h in reqs && reqs[h].stage == Done
      modifies this`info, this`free, this`desc, this`slots, this`reqs
      ensures Valid() && reqs == old(reqs) - {h}
      ensures free == More(old(free), h, old(reqs)[h].i1, old(reqs)[h].i2)
    {
      hide Queue, Partition, Chains, Zeroed, Buffers;
      Sizes(free, slots, reqs, desc, ops, info, disk);
      ghost var r := reqs[h];
      ChainAt(desc, ops, reqs, h);
      PlacedAt(free, slots, reqs, h);
      ghost var info0 := info;
      info := info[h := info[h].(b := 0)];
      FreeChain(h, r);
      DropParts(old(free), slots, reqs, h);
      DropChain(old(free), slots, old(desc), ops, reqs, h);
      DropBuffer(info0, disk, reqs, h);
      Leaves(availQ, availRing, devIdx, reqs, h, Posted);
      Leaves(usedQ, usedRing, seenIdx, reqs, h, Completed);
      slots := slots[h := Unused][r.i1 := Unused][r.i2 := Unused];
      reqs := reqs - {h};
    }
  }

  // ---------------------------------------------------------------- steps

  lemma Completes(availQ: seq<nat>, availRing: seq<nat>, devIdx: nat, usedQ: seq<nat>, usedRing: seq<nat>,
      seenIdx: nat, reqs: Requests, h: nat, r: Request)
    requires Queue(availQ, availRing, devIdx, reqs, Posted) && Queue(usedQ, usedRing, seenIdx, reqs, Completed)
    requires InTable(reqs)
    requires h in reqs && reqs[h].stage == Fetched && r == reqs[h].(stage := Completed)
    ensures |usedRing| == NUM && Queue(availQ, availRing, devIdx, reqs[h := r], Posted)
    ensures
      var i := (seenIdx + |usedQ|) % WRAP;
      Queue(usedQ + [h], usedRing[i % NUM := h], seenIdx, reqs[h := r], Completed)
          && (i + 1) % WRAP == (seenIdx + |usedQ + [h]|) % WRAP
  {
    hide Queue;
    QueueSizes(usedQ, usedRing, seenIdx, reqs, Completed);
    NotAt(usedQ, usedRing, seenIdx, reqs, Completed, h);
    RoomFor(usedQ, usedRing, seenIdx, reqs, Completed, h);
    Push(usedQ, usedRing, seenIdx, reqs, reqs[h := r], Completed, h);
    Stay(availQ, availRing, devIdx, reqs, reqs[h := r], Posted);
    IndexApart(seenIdx, |usedQ|);
    NextSum(seenIdx, |usedQ|);
  }

  lemma QueueSizes(q: seq<nat>, ring: seq<nat>, idx: nat, reqs: Requests, stage: Stage)
    requires Queue(q, ring, idx, reqs, stage)
    ensures |ring| == NUM && idx < WRAP && |q| <= NUM
  {
  }

  lemma NotAt(q: seq<nat>, ring: seq<nat>, idx: nat, reqs: Requests, stage: Stage, h: nat)
    requires Queue(q, ring, idx, reqs, stage) && h in reqs && reqs[h].stage != stage
    ensures h !in q
  {
  }

  lemma NoneAt(ring: seq<nat>, idx: nat, reqs: Requests, stage: Stage)
    requires Queue([], ring, idx, reqs, stage)
    ensures forall h :: h in reqs ==> reqs[h].stage != stage
  {
    var none: seq<nat> := [];
    forall h | h in reqs ensures reqs[h].stage != stage {
      assert reqs[h].stage == stage ==> h in none;
    }
  }

  lemma NextBoth(idx: nat, n: nat)
    requires n > 0
    ensures ((idx + 1) % WRAP + (n - 1)) % WRAP == (idx + n) % WRAP
  {
    var q := (idx + 1) / WRAP;
    assert idx + 1 == q * WRAP + (idx + 1) % WRAP;
  }

  lemma HeadsIn(free: seq<bool>, slots: seq<Slot>, reqs: Requests)
    requires Partition(free, slots, reqs)
    ensures InTable(reqs)
  {
    forall g | g in reqs ensures g < NUM {
      assert Placed(slots, g, reqs[g]);
    }
  }

  /** The indices differ, so an entry waits, and the ring shows it. */
  lemma Front(q: seq<nat>, ring: seq<nat>, idx: nat, end: nat, reqs: Requests, stage: Stage)
    requires Queue(q, ring, idx, reqs, stage) && end == (idx + |q|) % WRAP && idx != end
    ensures |ring| == NUM && idx < WRAP && q != [] && ring[idx % NUM] == q[0] && q[0] in reqs
    ensures reqs[q[0]].stage == stage
  {
    hide Queue;
    QueueSizes(q, ring, idx, reqs, stage);
    IndexApart(idx, |q|);
    assert q == [q[0]] + q[1..];
    First(q[0], q[1..], ring, idx, reqs, stage);
  }

  /** The entry is taken and its request moves on. */
  lemma Served(q: seq<nat>, ring: seq<nat>, idx: nat, end: nat, reqs: Requests, stage: Stage, h: nat, r: Request)
    requires Queue(q, ring, idx, reqs, stage) && end == (idx + |q|) % WRAP && q != [] && q[0] == h && r.stage != stage
    ensures Queue(q[1..], ring, (idx + 1) % WRAP, reqs[h := r], stage) && end == ((idx + 1) % WRAP + |q[1..]|) % WRAP
  {
    hide Queue;
    assert q == [h] + q[1..];
    Pop(h, q[1..], ring, idx, reqs, reqs[h := r], stage);
    NextBoth(idx, |q|);
  }

  /** The other queue does not see a request that neither leaves it nor enters it. */
  lemma StayAt(q: seq<nat>, ring: seq<nat>, idx: nat, reqs: Requests, h: nat, r: Request, stage: Stage)
    requires Queue(q, ring, idx, reqs, stage) && h in reqs && reqs[h].stage != stage && r.stage != stage
    ensures Queue(q, ring, idx, reqs[h := r], stage)
  {
    hide Queue;
    Stay(q, ring, idx, reqs, reqs[h := r], stage);
  }

  lemma Leaves(q: seq<nat>, ring: seq<nat>, idx: nat, reqs: Requests, h: nat, stage: Stage)
    requires Queue(q, ring, idx, reqs, stage) && h in reqs && reqs[h].stage != stage
    ensures Queue(q, ring, idx, reqs - {h}, stage)
  {
    hide Queue;
    Stay(q, ring, idx, reqs, reqs - {h}, stage);
  }

  lemma ChainAt(desc: seq<Desc>, ops: seq<Op>, reqs: Requests, h: nat)
    requires Chains(desc, ops, reqs) && h in reqs
    ensures Chain(desc, ops, h, reqs[h])
  {
  }

  lemma PlacedAt(free: seq<bool>, slots: seq<Slot>, reqs: Requests, h: nat)
    requires Partition(free, slots, reqs) && h in reqs
    ensures
      var r := reqs[h];
      && h < NUM && r.i1 < NUM && r.i2 < NUM && h != r.i1 && h != r.i2 && r.i1 != r.i2 && |free| == |slots| == NUM
      && !free[h] && !free[r.i1] && !free[r.i2]
  {
    assert Placed(slots, h, reqs[h]);
  }

  lemma BufferAt(info: seq<Info>, disk: map<nat, bool>, reqs: Requests, h: nat)
    requires Buffers(info, disk, reqs) && h in reqs
    ensures Waiting(info, disk, h, reqs[h])
  {
  }

  lemma BufferAll(info: seq<Info>, disk: map<nat, bool>, reqs: Requests)
    requires Buffers(info, disk, reqs)
    ensures forall h :: h in reqs ==> reqs[h].cleared == if reqs[h].stage.Done? then 1 else 0
  {
    forall h | h in reqs ensures reqs[h].cleared == if reqs[h].stage.Done? then 1 else 0 {
      assert Waiting(info, disk, h, reqs[h]);
    }
  }

  /** The stage of a request has nothing to do with its descriptors. */
  lemma SameTables(free: seq<bool>, slots: seq<Slot>, desc: seq<Desc>, ops: seq<Op>, reqs: Requests, h: nat, r: Request)
    requires Partition(free, slots, reqs) && Chains(desc, ops, reqs) && h in reqs
    requires r.(stage := reqs[h].stage, cleared := reqs[h].cleared) == reqs[h]
    ensures Partition(free, slots, reqs[h := r]) && Chains(desc, ops, reqs[h := r])
  {
    assert Placed(slots, h, reqs[h]) && Chain(desc, ops, h, reqs[h]);
  }

  lemma SameBuffers(info: seq<Info>, disk: map<nat, bool>, reqs: Requests, h: nat, r: Request)
    requires Buffers(info, disk, reqs) && h in reqs && reqs[h].stage.Posted? && r == reqs[h].(stage := Fetched)
    ensures Buffers(info, disk, reqs[h := r])
  {
    assert Waiting(info, disk, h, reqs[h]);
  }

  lemma StatusSet(info: seq<Info>, disk: map<nat, bool>, reqs: Requests, h: nat, r: Request)
    requires Buffers(info, disk, reqs) && h in reqs && reqs[h].stage.Fetched? && r == reqs[h].(stage := Completed)
    ensures h < |info| && Buffers(info[h := info[h].(status := 0)], disk, reqs[h := r])
  {
    assert Waiting(info, disk, h, reqs[h]);
    forall g | g in reqs && g != h ensures Waiting(info[h := info[h].(status := 0)], disk, g, reqs[g]) {
      assert Waiting(info, disk, g, reqs[g]);
    }
  }

  lemma FlagCleared(info: seq<Info>, disk: map<nat, bool>, reqs: Requests, h: nat, r: Request)
    requires Buffers(info, disk, reqs) && h in reqs && reqs[h].stage.Completed?
    requires r == reqs[h].(stage := Done, cleared := reqs[h].cleared + 1)
    ensures Buffers(info, disk[r.b := false], reqs[h := r])
  {
    assert Waiting(info, disk, h, reqs[h]);
    forall g | g in reqs && g != h ensures Waiting(info, disk[r.b := false], g, reqs[g]) {
      assert Waiting(info, disk, g, reqs[g]);
    }
  }

  ghost function More(free: seq<bool>, a: nat, b: nat, c: nat): seq<bool> {
    if a < |free| && b < |free| && c < |free| then free[a := true][b := true][c := true] else free
  }

  lemma DropParts(free: seq<bool>, slots: seq<Slot>, reqs: Requests, h: nat)
    requires Partition(free, slots, reqs) && h in reqs
    ensures
      var r := reqs[h];
      && h < NUM && r.i1 < NUM && r.i2 < NUM && |slots| == NUM
      && Partition(More(free, h, r.i1, r.i2), slots[h := Unused][r.i1 := Unused][r.i2 := Unused], reqs - {h})
  {
    var r := reqs[h];
    assert Placed(slots, h, r);
    var slots' := slots[h := Unused][r.i1 := Unused][r.i2 := Unused];
    forall g | g in reqs && g != h ensures Placed(slots', g, reqs[g]) {
      assert Placed(slots, g, reqs[g]);
    }
    forall i | 0 <= i < NUM && slots'[i].Part?
      ensures slots'[i].head in reqs - {h} && slots'[i].k < 3
      ensures i == Nth(slots'[i].head, reqs[slots'[i].head], slots'[i].k)
    {
      assert slots[i] == slots'[i];
    }
  }

  lemma DropChain(free: seq<bool>, slots: seq<Slot>, desc: seq<Desc>, ops: seq<Op>, reqs: Requests, h: nat)
    requires Partition(free, slots, reqs) && Chains(desc, ops, reqs) && Zeroed(desc, free) && h in reqs
    ensures
      var r := reqs[h];
      && h < NUM && r.i1 < NUM && r.i2 < NUM && |desc| == NUM
      && var desc' := desc[h := ZERO][r.i1 := ZERO][r.i2 := ZERO];
         Chains(desc', ops, reqs - {h}) && Zeroed(desc', More(free, h, r.i1, r.i2))
  {
    hide Chain;
    var r := reqs[h];
    assert Placed(slots, h, r);
    var desc' := desc[h := ZERO][r.i1 := ZERO][r.i2 := ZERO];
    forall g | g in reqs && g != h ensures Chain(desc', ops, g, reqs[g]) {
      assert Placed(slots, g, reqs[g]) && Chain(desc, ops, g, reqs[g]);
      OtherChain(desc, desc', ops, ops, g, reqs[g], h, r.i1, r.i2);
    }
  }

  lemma DropBuffer(info: seq<Info>, disk: map<nat, bool>, reqs: Requests, h: nat)
    requires Buffers(info, disk, reqs) && h in reqs
    ensures h < |info| && Buffers(info[h := info[h].(b := 0)], disk, reqs - {h})
  {
    assert Waiting(info, disk, h, reqs[h]);
    forall g | g in reqs && g != h ensures Waiting(info[h := info[h].(b := 0)], disk, g, reqs[g]) {
      assert Waiting(info, disk, g, reqs[g]);
    }
  }

  function NewOps(ops: seq<Op>, h: nat, blockno: nat, write: bool): seq<Op> {
    if h < |ops| then ops[h := Op(if write then T_OUT else T_IN, 0, blockno * BLOCK_SECTORS)] else ops
  }

  function NewDesc(desc: seq<Desc>, h: nat, i1: nat, i2: nat, b: nat, write: bool): seq<Desc> {
    if h < |desc| && i1 < |desc| && i2 < |desc| then
      desc[h := Desc(Command(h), 16, F_NEXT, i1)][i1 := Desc(DataOf(b), 1024, if write then F_NEXT
          else F_WRITE + F_NEXT, i2)][i2 := Desc(StatusOf(h), 1, F_WRITE, 0)]
    else desc
  }

  ghost function NewSlots(slots: seq<Slot>, h: nat, i1: nat, i2: nat): seq<Slot> {
    if h < |slots| && i1 < |slots| && i2 < |slots| then slots[h := Part(h, 0)][i1 := Part(h, 1)][i2 := Part(h, 2)]
        else slots
  }

  lemma NotQueued(q: seq<nat>, ring: seq<nat>, idx: nat, reqs: Requests, stage: Stage, h: nat)
    requires Queue(q, ring, idx, reqs, stage) && h !in reqs
    ensures h !in q && |ring| == NUM && idx < WRAP && |q| <= NUM
  {
  }

  ghost predicate Three(free: seq<bool>, a: nat, b: nat, c: nat) {
    |free| == NUM && a < NUM && b < NUM && c < NUM && a != b && a != c && b != c && free[a] && free[b] && free[c]
  }

  ghost function Less(free: seq<bool>, a: nat, b: nat, c: nat): seq<bool> {
    if |free| == NUM && a < NUM && b < NUM && c < NUM then free[a := false][b := false][c := false] else free
  }

  lemma ThreeOf(free: seq<bool>, idx: seq<nat>)
    requires |idx| == 3 && AllFree(free, idx)
    ensures Three(free, idx[0], idx[1], idx[2]) && Taken(free, idx) == Less(free, idx[0], idx[1], idx[2])
    ensures !FewFree(free)
  {
    assert idx == [idx[0], idx[1], idx[2]];
    var a, b, c := idx[0], idx[1], idx[2];
    var lo := if a < b && a < c then a else if b < c then b else c;
    var hi := if a > b && a > c then a else if b > c then b else c;
    assert lo < a + b + c - lo - hi < hi && free[lo] && free[a + b + c - lo - hi] && free[hi];
  }

  lemma Sizes(free: seq<bool>, slots: seq<Slot>, reqs: Requests, desc: seq<Desc>, ops: seq<Op>, info: seq<Info>,
      disk: map<nat, bool>)
    requires Partition(free, slots, reqs) && Chains(desc, ops, reqs) && Buffers(info, disk, reqs)
    ensures |free| == |slots| == |desc| == |ops| == |info| == NUM
  {
  }

  lemma NextSum(idx: nat, n: nat)
    ensures ((idx + n) % WRAP + 1) % WRAP == (idx + (n + 1)) % WRAP
  {
    var q := (idx + n) / WRAP;
    assert idx + n == q * WRAP + (idx + n) % WRAP;
  }

  ghost predicate InTable(reqs: Requests) {
    forall g :: g in reqs ==> g < NUM
  }

  /** A ring is not full while a request is missing from it. */
  lemma RoomFor(q: seq<nat>, ring: seq<nat>, idx: nat, reqs: Requests, stage: Stage, h: nat)
    requires Queue(q, ring, idx, reqs, stage) && InTable(reqs) && h < NUM && h !in q
    ensures |q| < NUM
  {
    var all := q + [h];
    DistinctLength(all, {0, 1, 2, 3, 4, 5, 6, 7});
  }

  lemma AddParts(free: seq<bool>, slots: seq<Slot>, reqs: Requests, h: nat, r: Request)
    requires Partition(free, slots, reqs) && Three(free, h, r.i1, r.i2)
    ensures h !in reqs && Partition(Less(free, h, r.i1, r.i2), NewSlots(slots, h, r.i1, r.i2), reqs[h := r])
    ensures InTable(reqs)
  {
    var slots' := NewSlots(slots, h, r.i1, r.i2);
    forall g | g in reqs ensures g != h && Placed(slots', g, reqs[g]) {
      assert Placed(slots, g, reqs[g]);
    }
  }

  lemma NewChain(desc: seq<Desc>, ops: seq<Op>, h: nat, r: Request)
    requires |desc| == |ops| == NUM && h < NUM && r.i1 < NUM && r.i2 < NUM && h != r.i1 && h != r.i2 && r.i1 != r.i2
    ensures Chain(NewDesc(desc, h, r.i1, r.i2, r.b, r.write), NewOps(ops, h, r.blockno, r.write), h, r)
  {
  }

  /** A chain stays as it is when other descriptors and other commands change. */
  lemma OtherChain(desc: seq<Desc>, desc': seq<Desc>, ops: seq<Op>, ops': seq<Op>, g: nat, q: Request, a: nat, b: nat,
      c: nat)
    requires Chain(desc, ops, g, q) && |desc'| == |ops'| == NUM
    requires forall i :: 0 <= i < NUM && i != a && i != b && i != c ==> desc'[i] == desc[i]
    requires forall i :: 0 <= i < NUM && i != a ==> ops'[i] == ops[i]
    requires g != a && g != b && g != c && q.i1 != a && q.i1 != b && q.i1 != c && q.i2 != a && q.i2 != b && q.i2 != c
    ensures Chain(desc', ops', g, q)
  {
  }

  lemma AddChain(free: seq<bool>, slots: seq<Slot>, desc': seq<Desc>, desc: seq<Desc>, ops: seq<Op>, reqs: Requests,
      h: nat, r: Request)
    requires Partition(free, slots, reqs) && Three(free, h, r.i1, r.i2) && Chains(desc, ops, reqs) && Zeroed(desc, free)
    requires desc' == NewDesc(desc, h, r.i1, r.i2, r.b, r.write)
    ensures Chains(desc', NewOps(ops, h, r.blockno, r.write), reqs[h := r]) && Zeroed(desc', Less(free, h, r.i1, r.i2))
  {
    hide Chain;
    var ops' := NewOps(ops, h, r.blockno, r.write);
    NewChain(desc, ops, h, r);
    forall g | g in reqs ensures g != h && Chain(desc', ops', g, reqs[g]) {
      assert Placed(slots, g, reqs[g]) && Chain(desc, ops, g, reqs[g]);
      OtherChain(desc, desc', ops, ops', g, reqs[g], h, r.i1, r.i2);
    }
  }

  lemma AddBuffer(info: seq<Info>, disk: map<nat, bool>, reqs: Requests, h: nat, r: Request)
    requires Buffers(info, disk, reqs) && h !in reqs && h < NUM && r.b != 0 && r.stage.Posted? && r.cleared == 0
    requires forall g :: g in reqs ==> reqs[g].b != r.b
    ensures |info| == NUM && Buffers(info[h := Info(r.b, 0xff)], disk[r.b := true], reqs[h := r])
  {
    var info', disk' := info[h := Info(r.b, 0xff)], disk[r.b := true];
    forall g | g in reqs ensures Waiting(info', disk', g, reqs[g]) {
      assert Waiting(info, disk, g, reqs[g]);
    }
  }

  // ---------------------------------------------------------------- sets of descriptors

  /** Different descriptors, all free. */
  ghost predicate AllFree(free: seq<bool>, idx: seq<nat>) {
    && |free| == NUM && (forall k :: 0 <= k < |idx| ==> idx[k] < NUM && free[idx[k]])
    && (forall j, k :: 0 <= j < k < |idx| ==> idx[j] != idx[k])
  }

  /** No three descriptors are free. */
  ghost predicate FewFree(free: seq<bool>) {
    |free| == NUM && forall a, b, c :: 0 <= a < b < c < NUM ==> !(free[a] && free[b] && free[c])
  }

  ghost function Taken(free: seq<bool>, idx: seq<nat>): (r: seq<bool>)
    requires |free| == NUM
    ensures |r| == NUM && forall i :: 0 <= i < NUM ==> (r[i] <==> free[i] && i !in idx)
  {
    seq(NUM, i requires 0 <= i < NUM => free[i] && i !in idx)
  }

  ghost function Returned(free: seq<bool>, idx: seq<nat>): (r: seq<bool>)
    requires |free| == NUM
    ensures |r| == NUM && forall i :: 0 <= i < NUM ==> (r[i] <==> free[i] || i in idx)
  {
    seq(NUM, i requires 0 <= i < NUM => free[i] || i in idx)
  }

  lemma TakeNext(free: seq<bool>, idx: seq<nat>, d: nat)
    requires AllFree(free, idx) && d < NUM && Taken(free, idx)[d]
    ensures AllFree(free, idx + [d]) && Taken(free, idx)[d := false] == Taken(free, idx + [d])
  {
  }

  lemma ReturnNext(free: seq<bool>, idx: seq<nat>, j: nat)
    requires AllFree(free, idx) && j < |idx|
    ensures !Returned(Taken(free, idx), idx[..j])[idx[j]]
    ensures Returned(Taken(free, idx), idx[..j])[idx[j] := true] == Returned(Taken(free, idx), idx[..j] + [idx[j]])
  {
  }

  lemma Restored(free: seq<bool>, idx: seq<nat>)
    requires AllFree(free, idx)
    ensures Returned(Taken(free, idx), idx) == free
  {
  }

  lemma NoneLeft(free: seq<bool>, idx: seq<nat>)
    requires AllFree(free, idx) && |idx| < 3 && forall i :: 0 <= i < NUM ==> !Taken(free, idx)[i]
    ensures FewFree(free)
  {
    forall a, b, c | 0 <= a < b < c < NUM ensures !(free[a] && free[b] && free[c]) {
      if free[a] && free[b] && free[c] {
        assert !Taken(free, idx)[a] && !Taken(free, idx)[b] && !Taken(free, idx)[c];
        Few(idx);
        DistinctLength([a, b, c], set k | 0 <= k < |idx| :: idx[k]);
      }
    }
  }

  lemma Few(idx: seq<nat>)
    requires |idx| < 3
    ensures |(set k | 0 <= k < |idx| :: idx[k])| < 3
  {
    var s := set k | 0 <= k < |idx| :: idx[k];
    if |idx| == 0 {
      assert s == {};
    } else if |idx| == 1 {
      assert s == {idx[0]};
    } else {
      assert s == {idx[0], idx[1]};
    }
  }
}
