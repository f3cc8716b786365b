/** The code of kernel/log.c on its own state: the in-memory header, the buffers and the disk. */
module LogDevice {
  import opened Words
  import opened LogHeader
  import opened LogProtocol
  import opened LogTheorems
  import opened LogRuns

  /** Content that `bread` returns: the buffer if there is one, else the disk block. */
  ghost function CacheOf(disk: seq<Block>, bufs: map<nat, Block>): (r: seq<Block>)
    ensures |r| == |disk|
    ensures forall b :: 0 <= b < |disk| ==> r[b] == if b in bufs then bufs[b] else disk[b]
  {
    seq(|disk|, b requires 0 <= b < |disk| => if b in bufs then bufs[b] else disk[b])
  }

  /** From `u` to `t` block `b` was written with content `v`. */
  ghost predicate Wrote(u: State, t: State, b: nat, v: Block) {
    && b < |u.disk| == |u.cache| && t.lh == u.lh
    && t.disk == u.disk[b := v] && t.cache == u.cache[b := v]
  }

  /** The content that the code finds in the buffer of block `b`. */
  function Buffer(u: State, b: nat): Block {
    if b < |u.cache| then u.cache[b] else Zeros(BSIZE)
  }

  /** Write `k + 1` of a commit, while it copies blocks into the log. */
  lemma CopyWrite(c: Config, s: State, k: nat)
    requires Inv(c, s) && s.pc == Commit(0) && k < |s.lh|
    ensures
      var u, t := Writes(c, s, k), Writes(c, s, k + 1);
      u.lh == s.lh && s.lh[k] < |u.cache| && Wrote(u, t, c.start + 1 + k, Buffer(u, s.lh[k])) && t.pins == u.pins
  {
    hide Inv, StoreRefines, Writes;
    WritesStep(c, s, k);
    assert c.IsHome(s.lh[k]);
  }

  /** Writes that come before the first install: the log and its header in a commit, none in a recovery. */
  function Installs(s: State): nat {
    if s.pc.Commit? then |s.lh| + 1 else 0
  }

  /** The write that installs the block at position `i` of the header. */
  lemma InstallWrite(c: Config, s: State, i: nat)
    requires Inv(c, s) && !s.pc.Normal? && s.pc.k == 0 && i < |s.lh|
    ensures
      var u, t := Writes(c, s, Installs(s) + i), Writes(c, s, Installs(s) + i + 1);
      && u.lh == s.lh && c.start + 1 + i < |u.cache| && s.lh[i] < |u.pins|
            && Wrote(u, t, s.lh[i], Buffer(u, c.start + 1 + i))
      && t.pins == if s.pc.Commit? then u.pins[s.lh[i] := u.pins[s.lh[i]] - 1] else u.pins
  {
    hide Inv, StoreRefines, Writes;
    WritesStep(c, s, Installs(s) + i);
    InstallWrote(c, Writes(c, s, Installs(s) + i), i);
  }

  lemma InstallWrote(c: Config, u: State, i: nat)
    requires WellFormed(c, u) && CanWrite(c, u) && i < |u.lh|
    requires u.pc == if u.pc.Commit? then Commit(|u.lh| + 1 + i) else Recover(i)
    ensures u.lh[i] < |u.pins| && c.start + 1 + i < |u.cache|
    ensures Wrote(u, WriteStep(c, u), u.lh[i], Buffer(u, c.start + 1 + i))
    ensures WriteStep(c, u).pins == if u.pc.Commit? then u.pins[u.lh[i] := u.pins[u.lh[i]] - 1] else u.pins
  {
    assert c.IsHome(u.lh[i]);
  }

  lemma WritesKeepHead(c: Config, s: State, k: nat)
    requires Inv(c, s) && k <= WritesLeft(s)
    ensures Writes(c, s, k).lh == s.lh
  {
    hide Inv, Writes;
    WritesInv(c, s, k);
  }

  /** The write that commits. */
  lemma HeadWrite(c: Config, s: State)
    requires Inv(c, s) && s.pc == Commit(0) && 0 < |s.lh|
    ensures c.Valid() && Storable(s.lh)
    ensures
      var u, t := Writes(c, s, |s.lh|), Writes(c, s, |s.lh| + 1);
      u.lh == s.lh && Wrote(u, t, c.start, EncodeHead(Buffer(u, c.start), s.lh)) && t.pins == u.pins
  {
    hide Inv, StoreRefines, Writes;
    WritesStep(c, s, |s.lh|);
  }

  /** The last write, which empties the header. */
  lemma ClearWrite(c: Config, s: State)
    requires Inv(c, s) && !s.pc.Normal? && s.pc.k == 0 && (s.pc.Commit? ==> s.lh != [])
    ensures c.Valid()
    ensures
      var m := Installs(s) + |s.lh|;
      var u, t := Writes(c, s, m), Writes(c, s, m + 1);
      u.lh == s.lh && Wrote(u, t, c.start, EncodeHead(Buffer(u, c.start), [])) && t.pins == u.pins
  {
    hide Inv, StoreRefines, Writes;
    var m := Installs(s) + |s.lh|;
    WritesStep(c, s, m);
    ClearWrote(c, Writes(c, s, m));
  }

  lemma ClearWrote(c: Config, u: State)
    requires WellFormed(c, u) && CanWrite(c, u)
    requires if u.pc.Commit? then u.pc.k == 2 * |u.lh| + 1 else u.pc.Recover? && u.pc.k == |u.lh|
    ensures Wrote(u, WriteStep(c, u), c.start, EncodeHead(Buffer(u, c.start), [])) && WriteStep(c, u).pins == u.pins
  {
  }

  lemma LastOpCommits(c: Config, s: State, p: nat)
    requires Inv(c, s) && Enabled(c, s, End(p))
    ensures Outstanding(s.ops[p := Outside]) + 1 == Outstanding(s.ops)
    ensures Outstanding(s.ops[p := Outside]) == 0 ==> Inv(c, s.(ops := s.ops[p := Outside], pc := Commit(0)))
  {
    OutstandingUpdate(s.ops, p, Outside);
    EndRefines(c, s, p);
    assert Step(c, s, End(p)).ops == s.ops[p := Outside];
  }

  /** The disk at one moment. */
  datatype Image = Image(disk: seq<Block>)

  /** The disks that the first `k` writes leave, one after the other. */
  ghost function DiskTrace(c: Config, s: State, k: nat): (r: seq<Image>)
    ensures |r| == k
  {
    if k == 0 then [] else DiskTrace(c, s, k - 1) + [Image(Writes(c, s, k).disk)]
  }

  class Log {
    const cfg: Config
    var disk: seq<Block>
    var bufs: map<nat, Block>
    var pins: seq<int>
    var n: nat
    const block: array<nat>
    var outstanding: nat
    var committing: bool
    /** The disk after each block write: the states in which a crash can find it. */
    ghost var trace: seq<Image>

    ghost predicate Valid()
      reads this, block
    {
      && block.Length == LOGSIZE && n <= LOGSIZE
      && |disk| == |pins| == cfg.nblocks
    }

    /** What `bread` returns for every block. */
    ghost function Cache(): (r: seq<Block>)
      reads this
      ensures |r| == |disk|
    {
      CacheOf(disk, bufs)
    }

    /** The object is in the state `s` of the transition system. */
    ghost predicate Shows(s: State)
      reads this, block
    {
      Valid() && disk == s.disk && Cache() == s.cache && block[..n] == s.lh && pins == s.pins
    }

    /** Power-on: the disk survives, the memory does not. */
    constructor (cfg: Config, disk: seq<Block>)
      requires |disk| == cfg.nblocks
      ensures Valid() && this.cfg == cfg && this.disk == disk && n == 0 && bufs == map[] && pins == seq(|disk|, _ => 0)
      ensures outstanding == 0 && !committing && trace == []
    {
      this.cfg, this.disk, bufs, pins := cfg, disk, map[], seq(|disk|, _ => 0);
      n, outstanding, committing, trace := 0, 0, false, [];
      block := new nat[LOGSIZE];
    }

    method BRead(b: nat) returns (v: Block)
      requires b < |disk|
      modifies this`bufs
      ensures v == Cache()[b] && b in bufs && bufs[b] == v
      ensures Cache() == old(Cache()) && old(bufs).Keys <= bufs.Keys
    {
      if b !in bufs {
        bufs := bufs[b := disk[b]];
      }
      v := bufs[b];
    }

    /** Fills the buffer of `b` with `v` and writes it out. */
    method BWrite(b: nat, v: Block)
      requires b < |disk| && b in bufs
      modifies this`bufs, this`disk, this`trace
      ensures disk == old(disk)[b := v] && Cache() == old(Cache())[b := v]
      ensures trace == old(trace) + [Image(disk)]
    {
      bufs := bufs[b := v];
      disk := disk[b := bufs[b]];
      trace := trace + [Image(disk)];
    }

    /** `bread` of both blocks, `memmove`, `bwrite`. */
    method CopyBlock(dst: nat, src: nat)
      requires dst < |disk| && src < |disk|
      modifies this`bufs, this`disk, this`trace
      ensures disk == old(disk)[dst := old(Cache())[src]] && Cache() == old(Cache())[dst := old(Cache())[src]]
      ensures trace == old(trace) + [Image(disk)]
    {
      var to := BRead(dst);
      var from := BRead(src);
      BWrite(dst, from);
    }

    /** `k` writes of the commit or recovery `s` have been made, and `trace` was `before` when it started. */
    ghost predicate At(s: State, before: seq<Image>, k: nat)
      reads this, block
    {
      Shows(Writes(cfg, s, k)) && trace == before + DiskTrace(cfg, s, k)
    }

    method WriteLog(ghost s: State, ghost before: seq<Image>)
      requires Inv(cfg, s) && s.pc == Pc.Commit(0) && 0 < |s.lh| && At(s, before, 0)
      modifies this`bufs, this`disk, this`trace
      ensures At(s, before, |s.lh|)
    {
      hide Inv, Writes, CacheOf, U32, EncodeHead, DecodeHead;
      WritesNone(cfg, s);
      var tail := 0;
      while tail < n
        invariant 0 <= tail <= n == |s.lh|
        invariant At(s, before, tail)
      {
        CopyWrite(cfg, s, tail);
        CopyBlock(cfg.start + tail + 1, block[tail]);
        tail := tail + 1;
      }
    }

    /** The header's buffer, filled entry by entry. */
    method FillHead(buf: Block) returns (hb: Block)
      requires Valid() && forall i :: 0 <= i < n ==> block[i] < WORD
      ensures hb == EncodeHead(buf, block[..n])
    {
      hide U32, PutU32;
      hb := PutU32(buf, 0, n);
      ghost var hb0 := hb;
      assert AllWords(block[..n]);
      var i := 0;
      while i < n
        invariant 0 <= i <= n
        invariant hb == PutWords(hb0, 4, block[..n], i)
      {
        hb := PutU32(hb, 4 + 4 * i, block[i]);
        i := i + 1;
      }
    }

    method WriteHead()
      requires Valid() && cfg.Valid() && Storable(block[..n])
      modifies this`bufs, this`disk, this`trace
      ensures disk == old(disk)[cfg.start := EncodeHead(old(Cache())[cfg.start], block[..n])]
      ensures Cache() == old(Cache())[cfg.start := EncodeHead(old(Cache())[cfg.start], block[..n])]
      ensures trace == old(trace) + [Image(disk)]
    {
      hide CacheOf, U32, EncodeHead, DecodeHead;
      assert forall i :: 0 <= i < n ==> block[i] == block[..n][i];
      var buf := BRead(cfg.start);
      var hb := FillHead(buf);
      BWrite(cfg.start, hb);
    }

    /** Puts one logged block home; `bunpin` drops the reference that `log_write` took. */
    method InstallOne(ghost s: State, ghost before: seq<Image>, tail: nat, recovering: bool)
      requires Inv(cfg, s) && !s.pc.Normal? && s.pc.k == 0 && (recovering <==> s.pc.Recover?)
      requires tail < n == |s.lh| && At(s, before, Installs(s) + tail)
      modifies this`bufs, this`disk, this`trace, this`pins
      ensures At(s, before, Installs(s) + tail + 1)
    {
      hide Inv, Writes, CacheOf, U32, EncodeHead, DecodeHead;
      InstallWrite(cfg, s, tail);
      CopyBlock(block[tail], cfg.start + tail + 1);
      if !recovering {
        pins := pins[block[tail] := pins[block[tail]] - 1];
      }
    }

    method InstallTrans(ghost s: State, ghost before: seq<Image>, recovering: bool)
      requires Inv(cfg, s) && !s.pc.Normal? && s.pc.k == 0 && (recovering <==> s.pc.Recover?)
      requires s.lh != [] || recovering
      requires At(s, before, Installs(s))
      modifies this`bufs, this`disk, this`trace, this`pins
      ensures At(s, before, Installs(s) + |s.lh|)
    {
      hide Inv, Writes, Shows, CacheOf;
      ghost var first := Installs(s);
      WritesKeepHead(cfg, s, first);
      assert n == |s.lh| by { ShowsCount(s, before, first); }
      var tail := 0;
      while tail < n
        invariant 0 <= tail <= n == |s.lh|
        invariant At(s, before, first + tail)
      {
        InstallOne(s, before, tail, recovering);
        tail := tail + 1;
      }
    }

    lemma ShowsCount(s: State, before: seq<Image>, k: nat)
      requires At(s, before, k) && Writes(cfg, s, k).lh == s.lh
      ensures n == |s.lh|
    {
    }

    /** The write of the full header, seen as the write after the last log copy. */
    method WriteCommitHead(ghost s: State, ghost before: seq<Image>)
      requires cfg.Valid() && Storable(s.lh) && At(s, before, |s.lh|)
      requires
        var u, t := Writes(cfg, s, |s.lh|), Writes(cfg, s, |s.lh| + 1);
        u.lh == s.lh && Wrote(u, t, cfg.start, EncodeHead(Buffer(u, cfg.start), s.lh)) && t.pins == u.pins
      modifies this`bufs, this`disk, this`trace
      ensures At(s, before, |s.lh| + 1)
    {
      hide Writes, CacheOf, U32, EncodeHead, DecodeHead;
      WriteHead();
    }

    /** Empties the header in memory and on the disk, as the last write of a commit or a recovery. */
    method EraseHead(ghost s: State, ghost before: seq<Image>, ghost k: nat)
      requires cfg.Valid() && At(s, before, k)
      requires
        var u, t := Writes(cfg, s, k), Writes(cfg, s, k + 1);
        Wrote(u, t, cfg.start, EncodeHead(Buffer(u, cfg.start), [])) && t.pins == u.pins
      modifies this`bufs, this`disk, this`trace, this`n
      ensures Valid() && n == 0 && trace == before + DiskTrace(cfg, s, k + 1)
      ensures
        var t := Writes(cfg, s, k + 1);
        disk == t.disk && Cache() == t.cache && pins == t.pins
    {
      hide Writes, CacheOf, U32, EncodeHead, DecodeHead;
      n := 0;
      WriteHead();
    }

    /** The three writing stages of a transaction: log, header, home blocks; then the header again. */
    method Commit(ghost s: State)
      requires Inv(cfg, s) && s.pc == Pc.Commit(0) && Shows(s)
      modifies this`bufs, this`disk, this`trace, this`pins, this`n
      ensures Valid() && n == 0
      ensures
        var t := Writes(cfg, s, CommitLen(|s.lh|));
        disk == t.disk && Cache() == t.cache && pins == t.pins
      ensures trace == old(trace) + DiskTrace(cfg, s, CommitLen(|s.lh|))
    {
      hide Inv, Writes, CacheOf, U32, EncodeHead, DecodeHead;
      ghost var before := trace;
      WritesNone(cfg, s);
      if n > 0 {
        WriteLog(s, before);
        HeadWrite(cfg, s);
        WriteCommitHead(s, before);
        InstallTrans(s, before, false);
        ClearWrite(cfg, s);
        EraseHead(s, before, Installs(s) + |s.lh|);
      }
    }

    method ReadHead()
      requires Valid() && cfg.Valid() && HeadCount(Cache()[cfg.start]) <= LOGSIZE
      modifies this`bufs, this`n, block
      ensures Valid() && Cache() == old(Cache()) && block[..n] == DecodeHead(old(Cache())[cfg.start])
    {
      var buf := BRead(cfg.start);
      n := U32(buf, 0);
      var i := 0;
      while i < n
        invariant 0 <= i <= n == U32(buf, 0)
        invariant forall j :: 0 <= j < i ==> block[j] == U32(buf, 4 + 4 * j)
        invariant Cache() == old(Cache())
      {
        block[i] := U32(buf, 4 + 4 * i);
        i := i + 1;
      }
    }

    /** Boot: replay the transaction in the header, if any, then erase it. */
    method RecoverFromLog()
      requires Valid() && bufs == map[] && pins == seq(|disk|, _ => 0)
      requires HeadOk(cfg, disk) && Inv(cfg, Restart(cfg, disk))
      modifies this`bufs, this`disk, this`trace, this`pins, this`n, block
      ensures Valid() && n == 0
      ensures
        var s := Restart(cfg, old(disk));
        var t := Writes(cfg, s, |s.lh| + 1);
        && disk == t.disk && Cache() == t.cache && pins == t.pins
        && trace == old(trace) + DiskTrace(cfg, s, |s.lh| + 1)
    {
      hide Inv, Writes, CacheOf, U32, EncodeHead, DecodeHead, DiskTrace;
      ghost var s := Restart(cfg, disk);
      ghost var before := trace;
      RestartShape(cfg, disk);
      EmptyCache(disk);
      WritesNone(cfg, s);
      ReadHead();
      InstallTrans(s, before, true);
      ClearWrite(cfg, s);
      EraseHead(s, before, |s.lh|);
    }

    /** The object and its counters are in the state `s`. */
    ghost predicate Agrees(s: State)
      reads this, block
    {
      Shows(s) && outstanding == Outstanding(s.ops) && committing == s.pc.Commit?
    }

    /** One pass of the loop in `begin_op`, under `log.lock`: start the operation or go to sleep. */
    method BeginOp(ghost s: State, ghost p: nat) returns (sleeps: bool)
      requires Agrees(s) && p < |s.ops| && s.ops[p].Outside? && p !in s.sleepers && !s.pc.Recover?
      modifies this`outstanding
      ensures sleeps <==> committing || n + (old(outstanding) + 1) * MAXOPBLOCKS > LOGSIZE
      ensures outstanding == old(outstanding) + if sleeps then 0 else 1
      ensures sleeps <==> Enabled(cfg, s, Sleep(p))
      ensures !sleeps <==> Enabled(cfg, s, Begin(p))
      ensures if sleeps then Agrees(s.(sleepers := s.sleepers + {p}))
                else Agrees(s.(ops := s.ops[p := Inside(MAXOPBLOCKS)]))
    {
      OutstandingUpdate(s.ops, p, Inside(MAXOPBLOCKS));
      if committing {
        sleeps := true;
      } else if n + (outstanding + 1) * MAXOPBLOCKS > LOGSIZE {
        sleeps := true;
      } else {
        outstanding := outstanding + 1;
        sleeps := false;
      }
    }

    /** The caller stores `v` in the buffer of `b`; `log_write` records the block and pins it, once. */
    method Record(b: nat, v: Block) returns (panics: bool)
      requires Valid() && b < |disk|
      modifies this`bufs, this`n, this`pins, block
      ensures Valid() && Cache() == old(Cache())[b := v]
      ensures panics <==> old(n) >= LOGSIZE || old(n) >= cfg.size - 1 || outstanding < 1
      ensures panics ==> block[..n] == old(block[..n]) && pins == old(pins)
      ensures !panics && b in old(block[..n]) ==> block[..n] == old(block[..n]) && pins == old(pins)
      ensures !panics && b !in old(block[..n]) ==>
                block[..n] == old(block[..n]) + [b] && pins == old(pins)[b := old(pins)[b] + 1]
    {
      bufs := bufs[b := v];
      if n >= LOGSIZE || n >= cfg.size - 1 {
        return true;
      }
      if outstanding < 1 {
        return true;
      }
      var i := 0;
      while i < n && block[i] != b
        invariant 0 <= i <= n
        invariant b !in block[..i]
      {
        i := i + 1;
      }
      assert i < n ==> block[..n][i] == b;
      assert i == n ==> block[..i] == block[..n];
      block[i] := b;
      if i == n {
        pins := pins[b := pins[b] + 1];
        n := n + 1;
      }
      return false;
    }

    /** `log_write` by process `p` is the step of the transition system, and panics exactly where that cannot be
        made. */
    method LogWrite(b: nat, v: Block, ghost s: State, ghost p: nat) returns (panics: bool)
      requires Agrees(s) && b < |disk| && Fits(cfg, s.disk, s.cache, s.lh)
      modifies this`bufs, this`n, this`pins, block
      ensures panics <==> LogWritePanics(cfg, s)
      ensures panics ==> Agrees(s.(cache := s.cache[b := v]))
      ensures Enabled(cfg, s, Label.LogWrite(p, b, v)) ==> !panics && Agrees(Step(cfg, s, Label.LogWrite(p, b, v)))
    {
      hide Fits, CacheOf, Outstanding, Step, Enabled;
      StepParts(cfg, s, p, b, v);
      panics := Record(b, v);
    }

    /** Ends an operation; the last one commits and then wakes every process that waits in `begin_op`. */
    method EndOp(ghost s: State, ghost p: nat)
      requires Inv(cfg, s) && Agrees(s) && Enabled(cfg, s, End(p))
      modifies this`outstanding, this`committing, this`bufs, this`disk, this`trace, this`pins, this`n
      ensures
        var t := s.(ops := s.ops[p := Outside]);
        if Outstanding(t.ops) > 0 then
          Agrees(t.(sleepers := {})) && trace == old(trace)
        else
          var u := t.(pc := Pc.Commit(0));
          var k := CommitLen(|u.lh|);
          && Agrees(Writes(cfg, u, k).(lh := [], ops := t.ops, pc := Normal, sleepers := {}))
          && trace == old(trace) + DiskTrace(cfg, u, k)
    {
      hide Inv, Writes, CacheOf, DiskTrace;
      LastOpCommits(cfg, s, p);
      outstanding := outstanding - 1;
      assert !committing;
      if outstanding == 0 {
        committing := true;
        Commit(s.(ops := s.ops[p := Outside], pc := Pc.Commit(0)));
        committing := false;
      }
    }
  }

  /** The parts of the state after the protocol's log_write step. */
  lemma StepParts(c: Config, s: State, p: nat, b: nat, v: Block)
    requires Fits(c, s.disk, s.cache, s.lh) && |s.pins| == c.nblocks && b < |s.cache|
    ensures Enabled(c, s, Label.LogWrite(p, b, v)) ==>
              var t := Step(c, s, Label.LogWrite(p, b, v));
              && !LogWritePanics(c, s) && b < |s.pins| && t.pc == s.pc && t.disk == s.disk && t.cache == s.cache[b := v]
              && t.lh == (if b in s.lh then s.lh else s.lh + [b])
              && t.pins == (if b in s.lh then s.pins else s.pins[b := s.pins[b] + 1])
              && Outstanding(t.ops) == Outstanding(s.ops)
  {
    hide Outstanding;
    if p < |s.ops| && s.ops[p].Inside? && s.ops[p].unused > 0 {
      OutstandingUpdate(s.ops, p, Inside(s.ops[p].unused - 1));
    }
  }

  lemma RestartShape(c: Config, disk: seq<Block>)
    requires HeadOk(c, disk) && Inv(c, Restart(c, disk))
    ensures c.Valid() && |disk| == c.nblocks
  {
  }

  lemma EmptyCache(disk: seq<Block>)
    ensures CacheOf(disk, map[]) == disk
  {
  }
}
