/** The state that the disk driver and the device share (sections 2.6 and 5.2 of Virtio 1.1), and its invariants. */
module VirtQueue {
  const NUM := 8
  const WRAP := 0x1_0000
  const BLOCK_SECTORS := 2

  const F_NEXT := 1
  const F_WRITE := 2
  const T_IN := 0
  const T_OUT := 1

  /** Where a descriptor points: nowhere, to a command header, to the data of a buffer, to a status byte. */
  datatype Addr = Nowhere | Command(i: nat) | DataOf(b: nat) | StatusOf(i: nat)

  datatype Desc = Desc(addr: Addr, len: nat, flags: nat, next: nat)

  datatype Op = Op(kind: nat, reserved: nat, sector: nat)

  /** `b` is a buffer number, 0 for none. */
  datatype Info = Info(b: nat, status: nat)

  const ZERO := Desc(Nowhere, 0, 0, 0)

  /** A request is announced, read by the device, completed by the device, or done: its buffer is released but its
      descriptors are not free yet. */
  datatype Stage = Posted | Fetched | Completed | Done

  /** `cleared` counts how often the disk flag of the buffer has been cleared for this request. */
  datatype Request = Request(b: nat, blockno: nat, write: bool, i1: nat, i2: nat, stage: Stage, cleared: nat)

  datatype Slot = Unused | Part(head: nat, k: nat)

  type Requests = map<nat, Request>

  // ---------------------------------------------------------------- descriptors

  ghost function Nth(h: nat, r: Request, k: nat): nat {
    if k == 0 then h else if k == 1 then r.i1 else r.i2
  }

  /** Each descriptor is free or is one of the three of one request. */
  ghost predicate Partition(free: seq<bool>, slots: seq<Slot>, reqs: Requests) {
    && |free| == NUM && |slots| == NUM
    && (forall i :: 0 <= i < NUM ==> (free[i] <==> slots[i].Unused?))
    && (forall i ::
          0 <= i < NUM && slots[i].Part? ==>
          slots[i].head in reqs && slots[i].k < 3 && i == Nth(slots[i].head, reqs[slots[i].head], slots[i].k))
    && (forall h :: h in reqs ==> Placed(slots, h, reqs[h]))
  }

  /** The sectors of 512 bytes that a request for a block of 1024 bytes names belong to no other block. */
  lemma SectorsApart(a: nat, b: nat, x: nat)
    requires a * BLOCK_SECTORS <= x < a * BLOCK_SECTORS + 1024 / 512
    requires b * BLOCK_SECTORS <= x < b * BLOCK_SECTORS + 1024 / 512
    ensures a == b && x * 512 / 1024 == a
  {
  }

  ghost predicate Placed(slots: seq<Slot>, h: nat, r: Request) {
    && |slots| == NUM && h < NUM && r.i1 < NUM && r.i2 < NUM
    && slots[h] == Part(h, 0) && slots[r.i1] == Part(h, 1) && slots[r.i2] == Part(h, 2)
  }

  /** The three descriptors of a request as section 5.2 wants them: command, data, status. */
  ghost predicate Chain(desc: seq<Desc>, ops: seq<Op>, h: nat, r: Request) {
    && |desc| == NUM && |ops| == NUM && h < NUM && r.i1 < NUM && r.i2 < NUM
    && desc[h] == Desc(Command(h), 16, F_NEXT, r.i1)
    && desc[r.i1] == Desc(DataOf(r.b), 1024, if r.write then F_NEXT else F_WRITE + F_NEXT, r.i2)
    && desc[r.i2] == Desc(StatusOf(h), 1, F_WRITE, 0)
    && ops[h] == Op(if r.write then T_OUT else T_IN, 0, r.blockno * BLOCK_SECTORS)
  }

  ghost predicate Chains(desc: seq<Desc>, ops: seq<Op>, reqs: Requests) {
    |desc| == NUM && |ops| == NUM && forall h :: h in reqs ==> Chain(desc, ops, h, reqs[h])
  }

  ghost predicate Zeroed(desc: seq<Desc>, free: seq<bool>) {
    |desc| == NUM && |free| == NUM && forall i :: 0 <= i < NUM && free[i] ==> desc[i] == ZERO
  }

  // ---------------------------------------------------------------- buffers

  /** The driver waits for the buffer exactly until the request is done, and has cleared the flag at most once. */
  ghost predicate Waiting(info: seq<Info>, disk: map<nat, bool>, h: nat, r: Request) {
    && |info| == NUM && h < NUM && info[h].b == r.b && r.b != 0 && r.b in disk
    && (disk[r.b] <==> !r.stage.Done?) && r.cleared == (if r.stage.Done? then 1 else 0)
    && (r.stage.Completed? ==> info[h].status == 0)
  }

  ghost predicate Buffers(info: seq<Info>, disk: map<nat, bool>, reqs: Requests) {
    && |info| == NUM && (forall h :: h in reqs ==> Waiting(info, disk, h, reqs[h]))
    && (forall h, g :: h in reqs && g in reqs && reqs[h].b == reqs[g].b ==> h == g)
  }

  // ---------------------------------------------------------------- rings

  /** The requests at a stage, in the order of the ring from index `idx` on. */
  ghost predicate Queue(q: seq<nat>, ring: seq<nat>, idx: nat, reqs: Requests, stage: Stage) {
    && |ring| == NUM && idx < WRAP && |q| <= NUM
    && (forall k :: 0 <= k < |q| ==> q[k] in reqs && reqs[q[k]].stage == stage && ring[(idx + k) % NUM] == q[k])
    && (forall h :: h in reqs && reqs[h].stage == stage ==> h in q)
    && (forall j, k :: 0 <= j < k < |q| ==> q[j] != q[k])
  }

  lemma {:induction false} DistinctLength(q: seq<nat>, s: set<nat>)
    requires (forall k :: 0 <= k < |q| ==> q[k] in s) && (forall j, k :: 0 <= j < k < |q| ==> q[j] != q[k])
    ensures |q| <= |s|
  {
    if q != [] {
      var n := |q| - 1;
      var rest := s - {q[n]};
      forall k | 0 <= k < n ensures q[..n][k] in rest {
        assert q[k] != q[n];
      }
      DistinctLength(q[..n], rest);
    }
  }

  /** The requests waiting in a ring are never more than those in flight. */
  lemma QueueFits(q: seq<nat>, ring: seq<nat>, idx: nat, reqs: Requests, stage: Stage)
    requires Queue(q, ring, idx, reqs, stage)
    ensures |q| <= |reqs.Keys|
  {
    DistinctLength(q, reqs.Keys);
  }

  /** The free-running 16-bit indices differ exactly when an entry is waiting. */
  lemma IndexApart(idx: nat, n: nat)
    requires idx < WRAP && n <= NUM
    ensures (idx + n) % WRAP == idx <==> n == 0
    ensures (idx + n) % WRAP % NUM == (idx + n) % NUM
  {
    if idx + n >= WRAP {
      assert (idx + n) % WRAP == idx + n - WRAP;
    }
  }

  lemma SlotApart(idx: nat, j: nat, k: nat)
    requires j < k < NUM + j
    ensures (idx + j) % NUM != (idx + k) % NUM
  {
  }

  /** Appending a request to a ring. */
  lemma Push(q: seq<nat>, ring: seq<nat>, idx: nat, reqs: Requests, reqs': Requests, stage: Stage, h: nat)
    requires Queue(q, ring, idx, reqs, stage) && |q| < NUM && h !in q && h in reqs' && reqs'[h].stage == stage
    requires forall g :: g != h ==> (g in reqs' <==> g in reqs) && (g in reqs ==> reqs'[g].stage == reqs[g].stage)
    ensures Queue(q + [h], ring[(idx + |q|) % NUM := h], idx, reqs', stage)
  {
    var q', ring' := q + [h], ring[(idx + |q|) % NUM := h];
    forall k | 0 <= k < |q'| ensures q'[k] in reqs' && reqs'[q'[k]].stage == stage && ring'[(idx + k) % NUM] == q'[k] {
      if k < |q| {
        SlotApart(idx, k, |q|);
      }
    }
  }

  lemma NextIndex(idx: nat, k: nat)
    requires idx < WRAP
    ensures (idx + 1) % WRAP < WRAP && ((idx + 1) % WRAP + k) % NUM == (idx + (k + 1)) % NUM
  {
    if idx + 1 == WRAP {
      assert idx + (k + 1) == k + (WRAP / NUM) * NUM;
    }
  }

  /** Taking the first request off a ring. */
  lemma Pop(h: nat, q: seq<nat>, ring: seq<nat>, idx: nat, reqs: Requests, reqs': Requests, stage: Stage)
    requires Queue([h] + q, ring, idx, reqs, stage) && h in reqs' && reqs'[h].stage != stage
    requires forall g :: g != h ==> (g in reqs' <==> g in reqs) && (g in reqs ==> reqs'[g].stage == reqs[g].stage)
    ensures Queue(q, ring, (idx + 1) % WRAP, reqs', stage)
  {
    var all := [h] + q;
    forall k | 0 <= k < |q|
        ensures q[k] in reqs' && reqs'[q[k]].stage == stage && ring[((idx + 1) % WRAP + k) % NUM] == q[k] {
      assert all[k + 1] == q[k] && all[0] != all[k + 1];
      NextIndex(idx, k);
    }
    forall j, k | 0 <= j < k < |q| ensures q[j] != q[k] {
      assert all[j + 1] != all[k + 1];
    }
    forall g | g in reqs' && reqs'[g].stage == stage ensures g in q {
      assert g in all && g != h;
    }
  }

  lemma First(h: nat, q: seq<nat>, ring: seq<nat>, idx: nat, reqs: Requests, stage: Stage)
    requires Queue([h] + q, ring, idx, reqs, stage)
    ensures ring[idx % NUM] == h && h in reqs && reqs[h].stage == stage
  {
    assert ([h] + q)[0] == h;
    assert ring[(idx + 0) % NUM] == h;
  }

  /** A change of requests that are not at this stage, before or after. */
  lemma Stay(q: seq<nat>, ring: seq<nat>, idx: nat, reqs: Requests, reqs': Requests, stage: Stage)
    requires Queue(q, ring, idx, reqs, stage)
    requires forall g :: g in reqs && reqs[g].stage == stage ==> g in reqs' && reqs'[g].stage == stage
    requires forall g :: g in reqs' && reqs'[g].stage == stage ==> g in reqs && reqs[g].stage == stage
    ensures Queue(q, ring, idx, reqs', stage)
  {
  }
}
