/** The file system on top of the log: what a crash at any step of any transaction leaves. */
module FsCrash {
  import opened Words
  import opened FsLayout
  import opened FsOps
  import opened LogHeader
  import opened LogProtocol
  import opened LogTheorems
  import opened LogRuns
  import opened Transactions
  import opened LogSerial
  import opened LogShared

  /** If the stored blocks are a good file system whenever no operation is under way, then in every state of every
      run, whatever recovery restores after a crash is a good file system too. */
  lemma FileSystemSurvivesCrashes(c: Config, l: Layout, s: State, ls: seq<Label>, u: State, rs: seq<Label>, t: State)
    requires Reaches(c, s, ls, u) && Recovering(rs) && HeadOk(c, u.disk)
    requires Exec(c, Restart(c, u.disk), rs + [Done]) == Some(t)
    requires forall j :: 0 <= j <= |ls| ==>
               var v := Exec(c, s, ls[..j]);
               v.Some? && Inv(c, v.value)
                   && (Outstanding(v.value.ops) == 0 ==> Mountable(l, StoreOf(c, v.value).current))
    ensures Inv(c, t) && t.pc.Normal? && Mountable(l, HomeOf(c, t.cache))
  {
    RunInv(c, s, ls, u);
    CrashConsistency(c, s, ls, u, blocks => Mountable(l, blocks));
    RecoveryRestores(c, u, rs, t);
  }

  /** The log lies below the inodes, as `mkfs` lays the disk out, and holds more blocks than one operation may log. */
  predicate LogBelow(c: Config, l: Layout) {
    c.Valid() && c.nblocks == l.size && c.start + c.size <= l.inodestart && c.size > MAXOPBLOCKS + 1
  }

  lemma SmallLoggable(c: Config, l: Layout, tx: seq<Update>)
    requires LogBelow(c, l) && SmallTx(l, tx)
    ensures Loggable(c, tx)
  {
  }

  lemma HistoryLoggable(c: Config, l: Layout, first: seq<Block>, ps: seq<nat>, txs: seq<seq<Update>>)
    requires LogBelow(c, l) && GoodHistory(l, first, txs) && |ps| == |txs| && forall k ::
              0 <= k < |ps| ==> ps[k] < NPROC
    ensures AllLoggable(c, ps, txs)
  {
    hide SmallTx, Loggable, LogBelow, Mountable;
    forall k | 0 <= k < |txs| ensures Loggable(c, txs[k]) {
      SmallLoggable(c, l, txs[k]);
    }
  }

  /** What a crash after `j` steps of the last transaction leaves: every transaction before it, and it as well
      exactly if its commit had written the header. */
  ghost function Survives(first: seq<Block>, txs: seq<seq<Update>>, j: nat): seq<Block>
    requires txs != []
  {
    var n := |txs| - 1;
    if Committed(txs[n], j) then After(first, txs) else After(first, txs[..n])
  }

  lemma SurvivesMountable(l: Layout, first: seq<Block>, txs: seq<seq<Update>>, j: nat)
    requires GoodHistory(l, first, txs) && txs != []
    ensures Mountable(l, Survives(first, txs, j))
  {
    hide Mountable, SmallTx;
    assert txs[..|txs|] == txs;
  }

  /** The transactions that file operations have recorded, run through the log from the boot on and cut by a crash
      after any step, followed by any number of interrupted recoveries and a complete one. */
  lemma TransactionsSurviveCrashes(c: Config, l: Layout, s: State, ps: seq<nat>, txs: seq<seq<Update>>, j: nat,
      rs: seq<Label>, t: State)
    requires Booted(c, s) && LogBelow(c, l) && GoodHistory(l, HomeOf(c, s.disk), txs) && txs != []
    requires |ps| == |txs| && forall k :: 0 <= k < |ps| ==> ps[k] < NPROC
    requires j <= TxLen(txs[|txs| - 1]) && Recovering(rs)
    ensures
      var n := |txs| - 1;
      var u := Exec(c, s, Serial(ps[..n], txs[..n]) + TxSteps(ps[n], txs[n])[..j]);
      && u.Some? && Inv(c, u.value)
      && (Exec(c, Restart(c, u.value.disk), rs + [Done]) == Some(t) ==>
            && Inv(c, t) && t.pc.Normal?
            && HomeOf(c, t.cache) == HomeOf(c, t.disk) == Survives(HomeOf(c, s.disk), txs, j)
            && Mountable(l, HomeOf(c, t.disk)))
  {
    hide Exec, Mountable, GoodHistory, Inv, Stage, Restart, Durable, HomeOf, LogBelow, TxSteps, Serial;
    var n := |txs| - 1;
    var first := HomeOf(c, s.disk);
    HistoryLoggable(c, l, first, ps, txs);
    SerialCut(c, s, ps, txs, j);
    var u := Exec(c, s, Serial(ps[..n], txs[..n]) + TxSteps(ps[n], txs[n])[..j]).value;
    SurvivesMountable(l, first, txs, j);
    CutDurable(c, After(first, txs[..n]), ps[n], txs[n], j, u);
    if Exec(c, Restart(c, u.disk), rs + [Done]) == Some(t) {
      RecoveryRestores(c, u, rs, t);
    }
  }

  /** Recorded transactions of operations that overlap and share commits, in any run of the log, cut by a crash in any
      state and followed by any number of interrupted recoveries and a complete one: the disk holds exactly the
      operations that had ended at the last commit, and it is a good file system. */
  lemma SharedCommitsSurviveCrashes(c: Config, l: Layout, s: State, ls: seq<Label>, u: State, rs: seq<Label>, t: State)
    requires Reaches(c, s, ls, u) && Follow(ls).Some? && Recovering(rs) && HeadOk(c, u.disk) && |s.disk| == c.nblocks
    requires GoodHistory(l, HomeOf(c, s.disk), Follow(ls).value.done)
    requires Exec(c, Restart(c, u.disk), rs + [Done]) == Some(t)
    ensures Inv(c, t) && t.pc.Normal? && Kept(c, s, ls) <= Follow(ls).value.done
    ensures HomeOf(c, t.disk) == HomeOf(c, t.cache) == After(HomeOf(c, s.disk), Kept(c, s, ls))
    ensures Mountable(l, HomeOf(c, t.disk))
  {
    hide Inv, Durable, HomeOf, Exec, Restart, Mountable, SmallTx, Follow, Kept;
    SharedCommits(c, s, ls, u);
    RecoveryRestores(c, u, rs, t);
    PrefixMountable(l, HomeOf(c, s.disk), Follow(ls).value.done, Kept(c, s, ls));
  }

  lemma PrefixMountable(l: Layout, first: seq<Block>, txs: seq<seq<Update>>, some: seq<seq<Update>>)
    requires GoodHistory(l, first, txs) && some <= txs
    ensures Mountable(l, After(first, some))
  {
    hide Mountable, SmallTx;
    assert txs[..|some|] == some;
  }

  lemma CutDurable(c: Config, start: seq<Block>, p: nat, tx: seq<Update>, j: nat, t: State)
    requires TxAt(c, start, p, tx, j, t)
    ensures Recoverable(c, t.disk) && HeadOk(c, t.disk) && Durable(c, t.disk) == if Committed(tx, j)
              then Apply(start, tx) else start
  {
  }
}
