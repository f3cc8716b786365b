/** Theorems about whole runs of the log: any interleaving of operations, commits, crashes and recoveries. */
module LogRuns {
  import opened Words
  import opened LogHeader
  import opened LogProtocol
  import opened LogTheorems

  datatype Option<T> = None | Some(value: T)

  /** The state reached from `s` by the steps `ls`, if every one of them is enabled. */
  ghost function Exec(c: Config, s: State, ls: seq<Label>): Option<State> {
    if ls == [] then Some(s)
    else
      var n := |ls| - 1;
      match Exec(c, s, ls[..n])
      case None => None
      case Some(t) =>
        if WellFormed(c, t) && Enabled(c, t, ls[n]) then Some(Step(c, t, ls[n])) else None
  }

  /** The machine has just booted from a file system whose log is empty, as `mkfs` writes it. */
  ghost predicate Booted(c: Config, s: State) {
    Recoverable(c, s.disk) && HeadIs(c, s.disk, []) && s == Restart(c, s.disk)
  }

  lemma BootedInv(c: Config, s: State)
    requires Booted(c, s)
    ensures Inv(c, s)
  {
  }

  ghost predicate Reaches(c: Config, s: State, ls: seq<Label>, t: State) {
    Booted(c, s) && Exec(c, s, ls) == Some(t)
  }

  /** The invariant holds in every state of every run. */
  lemma {:induction false} RunInv(c: Config, s: State, ls: seq<Label>, t: State)
    requires Reaches(c, s, ls, t)
    ensures Inv(c, t)
  {
    if ls == [] {
      BootedInv(c, s);
    } else {
      var n := |ls| - 1;
      var u := Exec(c, s, ls[..n]).value;
      RunInv(c, s, ls[..n], u);
      StepRefines(c, u, ls[n]);
    }
  }

  /** Group commit: reservations fit the log, the log holds distinct blocks, commits exclude
      operations, and a process sleeping in `begin_op` always has an operation or a commit to wake it. */
  lemma GroupCommit(c: Config, s: State, ls: seq<Label>, t: State)
    requires Reaches(c, s, ls, t)
    ensures t.pc.Normal? ==> |t.lh| + Unused(t.ops) <= LOGSIZE
    ensures Distinct(t.lh) && |t.lh| <= LOGSIZE && |t.lh| <= c.size - 1
    ensures forall i :: 0 <= i < |t.lh| ==> c.IsHome(t.lh[i])
    ensures !t.pc.Normal? ==> Outstanding(t.ops) == 0
    ensures t.sleepers != {} ==> Outstanding(t.ops) > 0 || t.pc.Commit?
  {
    RunInv(c, s, ls, t);
  }

  /** Every block holds at most one pin, only logged blocks do, and a logged block without one is already home. */
  lemma PinnedUntilInstalled(c: Config, s: State, ls: seq<Label>, t: State, b: nat)
    requires Reaches(c, s, ls, t) && b < |t.disk|
    ensures |t.pins| == |t.cache| == |t.disk| && 0 <= t.pins[b] <= 1
    ensures t.pins[b] == 1 ==> b in t.lh
    ensures !t.pc.Recover? && t.pins[b] == 0 ==> t.cache[b] == t.disk[b]
  {
    hide Inv;
    RunInv(c, s, ls, t);
    PinnedNow(c, t, b);
  }

  lemma PinnedNow(c: Config, t: State, b: nat)
    requires Inv(c, t) && b < |t.disk|
    ensures |t.pins| == |t.cache| == |t.disk| && 0 <= t.pins[b] <= 1
    ensures t.pins[b] == 1 ==> b in t.lh
    ensures !t.pc.Recover? && t.pins[b] == 0 ==> t.cache[b] == t.disk[b]
  {
    hide HeadIs, Recoverable;
    if t.pc.Recover? {
      hide Clean, Installed, LogCopied;
      assert Pinned(t.pins, t.lh, |t.lh|);
    } else {
      PinnedInv(c, t);
      if b in t.lh {
        var i := IndexOf(t.lh, b);
        PinsExactly(t.pins, t.lh, PinnedFrom(t), i);
        if PinnedFrom(t) > i {
          HomeAlready(c, t, i);
        }
      }
    }
  }

  lemma PinnedInv(c: Config, t: State)
    requires Inv(c, t) && !t.pc.Recover?
    ensures PinnedFrom(t) <= |t.lh| && Pinned(t.pins, t.lh, PinnedFrom(t))
  {
  }

  /** A block that the commit has installed is on the disk as it is in the cache. */
  lemma HomeAlready(c: Config, t: State, i: nat)
    requires Inv(c, t) && !t.pc.Recover? && i < PinnedFrom(t) && i < |t.lh|
    ensures c.IsHome(t.lh[i]) && t.cache[t.lh[i]] == t.disk[t.lh[i]]
  {
    hide HeadIs, Pinned, Recoverable, Clean;
    assert Installed(c, t.disk, t.lh, PinnedFrom(t)) && LogCopied(c, t.disk, t.cache, t.lh, |t.lh|);
  }

  lemma PinsExactly(pins: seq<int>, lh: seq<nat>, from: nat, i: nat)
    requires from <= |lh| && i < |lh| && lh[i] < |pins| && Distinct(lh) && Pinned(pins, lh, from)
    ensures pins[lh[i]] == if from <= i then 1 else 0
  {
    if from <= i {
      assert lh[from..][i - from] == lh[i];
    }
  }

  /** Position of the first logged block that the commit has not installed. */
  ghost function PinnedFrom(t: State): nat
    requires !t.pc.Recover?
  {
    var n := |t.lh|;
    if t.pc.Normal? || t.pc.k <= n then 0 else if t.pc.k == 2 * n + 2 then n else t.pc.k - n - 1
  }

  // ---------------------------------------------------------------- crash atomicity

  /** Length of the shortest prefix of the run whose current contents are the durable ones: the state in which
      the last commit was decided, or the boot. */
  ghost function LastCommit(c: Config, s: State, ls: seq<Label>): (j: nat)
    requires Exec(c, s, ls).Some?
    ensures j <= |ls|
  {
    if ls == [] then 0
    else
      var n := |ls| - 1;
      if CommitPoint(Exec(c, s, ls[..n]).value, ls[n]) then n else LastCommit(c, s, ls[..n])
  }

  /** Crash atomicity: in every state of every run, what a crash would leave is exactly what system calls saw
      at the last commit, and no operation was under way then. */
  lemma {:induction false} CrashAtomicity(c: Config, s: State, ls: seq<Label>, t: State)
    requires Reaches(c, s, ls, t)
    ensures
      var j := LastCommit(c, s, ls);
      && Exec(c, s, ls[..j]).Some? && Inv(c, t)
      && var u := Exec(c, s, ls[..j]).value;
         Inv(c, u) && Outstanding(u.ops) == 0 && Durable(c, t.disk) == StoreOf(c, u).current
  {
    hide Inv, Durable, HomeOf, StoreOf, Outstanding, Booted, Step, Enabled, WellFormed;
    RunInv(c, s, ls, t);
    if ls == [] {
      AtBoot(c, s);
    } else {
      var n := |ls| - 1;
      var u := Exec(c, s, ls[..n]).value;
      RunInv(c, s, ls[..n], u);
      NextDurable(c, u, ls[n]);
      if !CommitPoint(u, ls[n]) {
        CrashAtomicity(c, s, ls[..n], u);
        var j := LastCommit(c, s, ls);
        assert ls[..n][..j] == ls[..j];
      } else {
        assert LastCommit(c, s, ls) == n;
      }
    }
  }

  lemma AtBoot(c: Config, s: State)
    requires Booted(c, s)
    ensures Inv(c, s) && Outstanding(s.ops) == 0 && Durable(c, s.disk) == StoreOf(c, s).current
  {
    BootedInv(c, s);
  }

  /** What a step leaves durable: the current blocks if it commits, and what was durable before if it does not. */
  lemma NextDurable(c: Config, u: State, l: Label)
    requires Inv(c, u) && Enabled(c, u, l)
    ensures
      var t := Step(c, u, l);
      && Inv(c, t)
      && (CommitPoint(u, l) ==> Outstanding(u.ops) == 0 && Durable(c, t.disk) == StoreOf(c, u).current)
      && (!CommitPoint(u, l) ==> Durable(c, t.disk) == Durable(c, u.disk))
  {
    hide Durable, HomeOf, Step, LogCopied, HeadIs, Installed, Pinned, Clean, NormalInv, RecoverInv;
    StepRefines(c, u, l);
  }

  /** A property of the stored blocks that holds whenever no operation is under way survives every crash. */
  lemma CrashConsistency(c: Config, s: State, ls: seq<Label>, t: State, good: seq<Block> -> bool)
    requires Reaches(c, s, ls, t)
    requires forall j :: 0 <= j <= |ls| ==>
               var u := Exec(c, s, ls[..j]);
               u.Some? && Inv(c, u.value) && (Outstanding(u.value.ops) == 0 ==> good(StoreOf(c, u.value).current))
    ensures Inv(c, t) && good(Durable(c, t.disk))
  {
    CrashAtomicity(c, s, ls, t);
    var j := LastCommit(c, s, ls);
    assert 0 <= j <= |ls|;
  }

  /** Steps that can follow a crash before recovery is complete: block writes and further crashes. */
  ghost predicate Recovering(ls: seq<Label>) {
    forall i :: 0 <= i < |ls| ==> ls[i].Write? || ls[i].Crash?
  }

  /** While recovery runs, and however often it is cut short, what is durable does not change. */
  lemma {:induction false} RecoveryKeeps(c: Config, u: State, ls: seq<Label>, t: State)
    requires Inv(c, u) && Exec(c, Restart(c, u.disk), ls) == Some(t) && Recovering(ls)
    ensures Inv(c, t) && t.pc.Recover? && Durable(c, t.disk) == Durable(c, u.disk)
  {
    if ls == [] {
      CrashRefines(c, u);
    } else {
      var n := |ls| - 1;
      var v := Exec(c, Restart(c, u.disk), ls[..n]).value;
      assert Recovering(ls[..n]);
      RecoveryKeeps(c, u, ls[..n], v);
      StepRefines(c, v, ls[n]);
    }
  }

  /** After a crash in any state `u`, any number of interrupted recoveries and one that completes, the home blocks
      on the disk are the durable ones and the log is empty. */
  lemma RecoveryRestores(c: Config, u: State, ls: seq<Label>, t: State)
    requires Inv(c, u) && Recovering(ls) && Exec(c, Restart(c, u.disk), ls + [Done]) == Some(t)
    ensures Inv(c, t) && t.pc.Normal? && HeadIs(c, t.disk, [])
    ensures HomeOf(c, t.disk) == HomeOf(c, t.cache) == Durable(c, u.disk)
  {
    var n := |ls|;
    assert (ls + [Done])[..n] == ls;
    var v := Exec(c, Restart(c, u.disk), ls).value;
    RecoveryKeeps(c, u, ls, v);
    StepRefines(c, v, Done);
    DurableEmpty(c, t.disk);
    DoneClean(c, v);
  }

  // ---------------------------------------------------------------- one transaction, cut at any write

  /** The state after `k` block writes of a commit or a recovery. */
  ghost function Writes(c: Config, s: State, k: nat): State {
    if k == 0 then s
    else
      var u := Writes(c, s, k - 1);
      if WellFormed(c, u) && CanWrite(c, u) then WriteStep(c, u) else u
  }

  /** Block writes that the running commit or recovery has still to make. */
  function WritesLeft(s: State): int {
    match s.pc
    case Normal => 0
    case Commit(k) => CommitLen(|s.lh|) - k
    case Recover(k) => |s.lh| + 1 - k
  }

  /** `t` is `s` after `k` more writes: only the blocks, the pins and the write counter differ. */
  ghost predicate Later(s: State, k: nat, t: State) {
    && t.lh == s.lh && t.ops == s.ops && t.sleepers == s.sleepers
    && match s.pc
       case Normal => t.pc == Normal
       case Commit(j) => t.pc == Commit(j + k)
       case Recover(j) => t.pc == Recover(j + k)
  }

  lemma {:induction false} WritesInv(c: Config, s: State, k: nat)
    requires Inv(c, s) && k <= WritesLeft(s)
    ensures Inv(c, Writes(c, s, k)) && Later(s, k, Writes(c, s, k))
  {
    hide Inv, StoreRefines, Writes;
    if k == 0 {
      WritesNone(c, s);
    } else {
      WritesInv(c, s, k - 1);
      WritesOne(c, s, k - 1);
    }
  }

  lemma WritesNone(c: Config, s: State)
    ensures Writes(c, s, 0) == s && Later(s, 0, s)
  {
  }

  lemma WritesOne(c: Config, s: State, k: nat)
    requires Inv(c, Writes(c, s, k)) && Later(s, k, Writes(c, s, k)) && k < WritesLeft(s)
    ensures
      var u, t := Writes(c, s, k), Writes(c, s, k + 1);
      && WellFormed(c, u) && CanWrite(c, u) && t == WriteStep(c, u)
      && Later(s, k + 1, t) && Refines(c, u, Write, t)
  {
    hide Refines, CommitInv, RecoverInv, NormalInv, Fits, Clean, Recoverable, NextWrite;
    WriteRefines(c, Writes(c, s, k));
  }

  lemma WritesStep(c: Config, s: State, k: nat)
    requires Inv(c, s) && k < WritesLeft(s)
    ensures
      var u, t := Writes(c, s, k), Writes(c, s, k + 1);
      && Later(s, k, u) && StoreRefines(c, u, Write, t)
      && WellFormed(c, u) && CanWrite(c, u) && t == WriteStep(c, u)
  {
    hide Inv, StoreRefines;
    WritesInv(c, s, k);
    WritesOne(c, s, k);
  }

  /** The abstract store of `t`. */
  ghost predicate StoreIs(c: Config, t: State, durable: seq<Block>, current: seq<Block>) {
    Recoverable(c, t.disk) && |t.cache| == c.nblocks && StoreOf(c, t) == Store(durable, current)
  }

  lemma StoreIsStep(c: Config, u: State, t: State, durable: seq<Block>, current: seq<Block>)
    requires StoreIs(c, u, durable, current) && StoreRefines(c, u, Write, t)
    ensures StoreIs(c, t, if CommitPoint(u, Write) then current else durable, current)
  {
    hide Durable, HomeOf;
  }

  /** What is durable and what is current after `k` writes. */
  lemma {:induction false} StoreAfter(c: Config, s: State, k: nat, durable: seq<Block>, current: seq<Block>)
    requires Inv(c, s) && !s.pc.Normal? && s.pc.k == 0 && k <= WritesLeft(s) && StoreIs(c, s, durable, current)
    ensures StoreIs(c, Writes(c, s, k), if s.pc.Commit? && k > |s.lh| then current else durable, current)
  {
    hide Inv, StoreIs, StoreRefines, Writes, WellFormed;
    if k == 0 {
      WritesNone(c, s);
    } else {
      StoreAfter(c, s, k - 1, durable, current);
      WritesStep(c, s, k - 1);
      StoreIsStep(c, Writes(c, s, k - 1), Writes(c, s, k), if s.pc.Commit? && k - 1 > |s.lh| then current
          else durable, current);
    }
  }

  /** A crash after `k` writes of a commit leaves all of the transaction if the header was among them, and none
      of it otherwise. */
  lemma CommitCut(c: Config, s: State, k: nat)
    requires Inv(c, s) && s.pc == Commit(0) && k <= CommitLen(|s.lh|)
    ensures StoreIs(c, Writes(c, s, k), if k > |s.lh| then HomeOf(c, s.cache)
              else Durable(c, s.disk), HomeOf(c, s.cache))
  {
    StoreAfter(c, s, k, Durable(c, s.disk), HomeOf(c, s.cache));
  }

  /** A recovery cut after any number of its writes leaves what the crash before it left. */
  lemma RecoveryCut(c: Config, s: State, k: nat)
    requires Inv(c, s) && s.pc == Recover(0) && k <= |s.lh| + 1
    ensures StoreIs(c, Writes(c, s, k), Durable(c, s.disk), Durable(c, s.disk))
  {
    StoreAfter(c, s, k, Durable(c, s.disk), Durable(c, s.disk));
  }
}
