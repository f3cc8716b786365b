/** The redo log as a transition system. One step is one critical section of `log.lock` or one block write,
    and a crash may come between any two steps. */
module LogProtocol {
  import opened Words
  import opened LogHeader

  const NPROC := 64

  /** The area [start, start + size) belongs to the log; every other block below `nblocks` is a home block. */
  datatype Config = Config(start: nat, size: nat, nblocks: nat) {
    predicate Valid() {
      1 <= size && start + size <= nblocks < WORD
    }

    predicate IsHome(b: nat) {
      b < nblocks && !(start <= b < start + size)
    }
  }

  /** A process is outside every transaction, or may still add `unused` new blocks to the log. */
  datatype Op = Outside | Inside(unused: nat)

  /** `Commit(k)` and `Recover(k)`: `k` block writes of the commit, or of the recovery, have been made. */
  datatype Pc = Normal | Commit(k: nat) | Recover(k: nat)

  /** `cache` is the content every `bread` returns; `pins[b]` counts the references to block `b` that `bpin` took. */
  datatype State = State(
    disk: seq<Block>,
    cache: seq<Block>,
    lh: seq<nat>,
    ops: seq<Op>,
    sleepers: set<nat>,
    pins: seq<int>,
    pc: Pc)

  datatype Label =
    | Begin(p: nat)
    | Sleep(p: nat)
    | LogWrite(p: nat, b: nat, v: Block)
    | End(p: nat)
    | Write
    | Done
    | Crash

  /** `log.outstanding`. */
  function Outstanding(ops: seq<Op>): (n: nat)
    ensures n == 0 <==> forall p :: 0 <= p < |ops| ==> ops[p].Outside?
  {
    if ops == [] then 0 else
      var l := |ops| - 1;
      assert forall p :: 0 <= p < l ==> ops[p] == ops[..l][p];
      Outstanding(ops[..l]) + if ops[l].Inside? then 1 else 0
  }

  /** The log space that running operations may still claim. */
  function Unused(ops: seq<Op>): nat {
    if ops == [] then 0 else
      var l := |ops| - 1;
      Unused(ops[..l]) + if ops[l].Inside? then ops[l].unused else 0
  }

  /** The logged blocks are home blocks, and the log area has room for their copies. */
  ghost predicate Fits(c: Config, disk: seq<Block>, cache: seq<Block>, lh: seq<nat>) {
    && c.Valid()
    && |disk| == |cache| == c.nblocks
    && Storable(lh)
    && |lh| <= c.size - 1
    && forall i :: 0 <= i < |lh| ==> c.IsHome(lh[i])
  }

  predicate Distinct(lh: seq<nat>) {
    forall i, j :: 0 <= i < j < |lh| ==> lh[i] != lh[j]
  }

  ghost predicate WellFormed(c: Config, s: State) {
    && Fits(c, s.disk, s.cache, s.lh)
    && |s.ops| == NPROC && |s.pins| == c.nblocks
    && Distinct(s.lh)
  }

  // ---------------------------------------------------------------- block writes of commit and recovery

  /** Number of block writes: write_log, write_head, install_trans, write_head; nothing for an empty log. */
  function CommitLen(n: nat): nat {
    if n == 0 then 0 else 2 * n + 2
  }

  predicate CanWrite(c: Config, s: State) {
    match s.pc
    case Normal => false
    case Commit(k) => k < CommitLen(|s.lh|)
    case Recover(k) => k < |s.lh| + 1
  }

  /** Target and content of the next block write, as the code computes them from the buffers. */
  function NextWrite(c: Config, s: State): (w: (nat, Block))
    requires Fits(c, s.disk, s.cache, s.lh)
    requires CanWrite(c, s)
    ensures w.0 < c.nblocks
  {
    var n := |s.lh|;
    match s.pc
    case Commit(k) =>
      if k < n then assert c.IsHome(s.lh[k]); (c.start + 1 + k, s.cache[s.lh[k]])
      else if k == n then (c.start, EncodeHead(s.cache[c.start], s.lh))
      else if k <= 2 * n then (s.lh[k - n - 1], s.cache[c.start + 1 + (k - n - 1)])
      else (c.start, EncodeHead(s.cache[c.start], []))
    case Recover(k) =>
      if k < n then assert c.IsHome(s.lh[k]); (s.lh[k], s.cache[c.start + 1 + k])
      else (c.start, EncodeHead(s.cache[c.start], []))
  }

  function Advance(pc: Pc): Pc {
    match pc
    case Normal => Normal
    case Commit(k) => Commit(k + 1)
    case Recover(k) => Recover(k + 1)
  }

  /** The block written next is released by `bunpin` when `install_trans(0)` has put it home. */
  function WriteStep(c: Config, s: State): (t: State)
    requires Fits(c, s.disk, s.cache, s.lh) && |s.pins| == c.nblocks
    requires CanWrite(c, s)
  {
    var w := NextWrite(c, s);
    s.(disk := s.disk[w.0 := w.1],
       cache := s.cache[w.0 := w.1],
       pc := Advance(s.pc),
       pins := if s.pc.Commit? && |s.lh| < s.pc.k <= 2 * |s.lh| then s.pins[w.0 := s.pins[w.0] - 1] else s.pins)
  }

  // ---------------------------------------------------------------- the transition system

  /** `begin_op` has to wait: the operation could run the log out of space. */
  predicate LogFull(s: State) {
    |s.lh| + (Outstanding(s.ops) + 1) * MAXOPBLOCKS > LOGSIZE
  }

  /** The first two tests of `log_write`. */
  predicate LogWritePanics(c: Config, s: State) {
    || |s.lh| >= LOGSIZE
    || |s.lh| >= c.size - 1
    || Outstanding(s.ops) < 1
  }

  predicate Enabled(c: Config, s: State, l: Label) {
    match l
    case Begin(p) => p < |s.ops| && p !in s.sleepers && s.ops[p].Outside? && s.pc.Normal? && !LogFull(s)
    case Sleep(p) => p < |s.ops| && p !in s.sleepers && s.ops[p].Outside?
        && (s.pc.Commit? || (s.pc.Normal? && LogFull(s)))
    case LogWrite(p, b, v) =>
      && p < |s.ops| && s.ops[p].Inside? && s.pc.Normal?
      && c.IsHome(b)
      && (b in s.lh || s.ops[p].unused > 0)
      && !LogWritePanics(c, s)
    case End(p) => p < |s.ops| && s.ops[p].Inside? && s.pc.Normal?
    case Write => CanWrite(c, s)
    case Done =>
      match s.pc {
        case Normal => false
        case Commit(k) => k == CommitLen(|s.lh|)
        case Recover(k) => k == |s.lh| + 1
      }
    case Crash => HeadOk(c, s.disk)
  }

  /** `read_head` can load the header that is on the disk. */
  predicate HeadOk(c: Config, disk: seq<Block>) {
    c.start < |disk| && HeadCount(disk[c.start]) <= LOGSIZE
  }

  /** The state after a step. A crash keeps the disk only; the restart reads the header before it writes. */
  function Step(c: Config, s: State, l: Label): (t: State)
    requires Fits(c, s.disk, s.cache, s.lh) && |s.pins| == c.nblocks
    requires Enabled(c, s, l)
  {
    match l
    case Begin(p) => s.(ops := s.ops[p := Inside(MAXOPBLOCKS)])
    case Sleep(p) => s.(sleepers := s.sleepers + {p})
    case LogWrite(p, b, v) =>
      var absorbed := b in s.lh;
      s.(cache := s.cache[b := v],
         lh := if absorbed then s.lh else s.lh + [b],
         ops := if absorbed then s.ops else s.ops[p := Inside(s.ops[p].unused - 1)],
         pins := if absorbed then s.pins else s.pins[b := s.pins[b] + 1])
    case End(p) =>
      var ops := s.ops[p := Outside];
      if Outstanding(ops) == 0 then s.(ops := ops, pc := Commit(0))
      else s.(ops := ops, sleepers := {})
    case Write => WriteStep(c, s)
    case Done => s.(lh := [], pc := Normal, sleepers := {})
    case Crash => Restart(c, s.disk)
  }

  function Restart(c: Config, disk: seq<Block>): State
    requires HeadOk(c, disk)
  {
    State(disk, disk, DecodeHead(disk[c.start]), seq(NPROC, _ => Outside), {}, seq(|disk|, _ => 0), Recover(0))
  }

  // ---------------------------------------------------------------- the invariant

  /** Every log block up to `k` holds what its home block should hold. */
  ghost predicate LogCopied(c: Config, disk: seq<Block>, cache: seq<Block>, lh: seq<nat>, k: nat)
    requires Fits(c, disk, cache, lh) && k <= |lh|
  {
    forall i :: 0 <= i < k ==> disk[c.start + 1 + i] == cache[lh[i]]
  }

  ghost predicate Installed(c: Config, disk: seq<Block>, lh: seq<nat>, k: nat)
    requires Fits(c, disk, disk, lh) && k <= |lh|
  {
    forall i :: 0 <= i < k ==> disk[lh[i]] == disk[c.start + 1 + i]
  }

  ghost predicate HeadIs(c: Config, disk: seq<Block>, blocks: seq<nat>) {
    HeadOk(c, disk) && DecodeHead(disk[c.start]) == blocks
  }

  ghost predicate Clean(disk: seq<Block>, cache: seq<Block>, lh: seq<nat>) {
    |disk| == |cache| && forall b :: 0 <= b < |disk| && b !in lh ==> cache[b] == disk[b]
  }

  /** The logged blocks from position `from` on hold one pin each, and no other block holds any. */
  ghost predicate Pinned(pins: seq<int>, lh: seq<nat>, from: nat)
    requires from <= |lh|
  {
    forall b :: 0 <= b < |pins| ==> pins[b] == if b in lh[from..] then 1 else 0
  }

  ghost predicate Quiet(ops: seq<Op>) {
    forall p :: 0 <= p < |ops| ==> ops[p].Outside?
  }

  ghost predicate NormalInv(c: Config, s: State) {
    && HeadIs(c, s.disk, [])
    && Pinned(s.pins, s.lh, 0)
    && |s.lh| + Unused(s.ops) <= LOGSIZE
    && (forall p :: 0 <= p < |s.ops| && s.ops[p].Inside? ==> s.ops[p].unused <= MAXOPBLOCKS)
    && (Quiet(s.ops) ==> s.lh == [] && s.sleepers == {})
  }

  /** `k` writes of the commit have been made. */
  ghost predicate CommitInv(c: Config, s: State, k: nat)
    requires WellFormed(c, s)
  {
    var n := |s.lh|;
    && Quiet(s.ops)
    && k <= CommitLen(n)
    && LogCopied(c, s.disk, s.cache, s.lh, if k <= n then k else n)
    && HeadIs(c, s.disk, if n < k < 2 * n + 2 then s.lh else [])
    && (n < k ==> Installed(c, s.disk, s.lh, if k == 2 * n + 2 then n else k - n - 1))
    && Pinned(s.pins, s.lh, if k <= n then 0 else if k == 2 * n + 2 then n else k - n - 1)
  }

  ghost predicate RecoverInv(c: Config, s: State, k: nat)
    requires WellFormed(c, s)
  {
    var n := |s.lh|;
    && Quiet(s.ops)
    && k <= n + 1
    && s.sleepers == {}
    && Pinned(s.pins, s.lh, n)
    && s.cache == s.disk
    && Installed(c, s.disk, s.lh, if k <= n then k else n)
    && HeadIs(c, s.disk, if k <= n then s.lh else [])
  }

  /** The header names no more blocks than the log area can hold. */
  predicate Recoverable(c: Config, disk: seq<Block>) {
    && c.Valid() && |disk| == c.nblocks && HeadOk(c, disk)
    && HeadCount(disk[c.start]) <= c.size - 1
  }

  ghost predicate Inv(c: Config, s: State) {
    && WellFormed(c, s)
    && Recoverable(c, s.disk)
    && Clean(s.disk, s.cache, s.lh)
    && match s.pc
       case Normal => NormalInv(c, s)
       case Commit(k) => CommitInv(c, s, k)
       case Recover(k) => RecoverInv(c, s, k)
  }
}
