/** Transactions run through the log one after the other: what each step leaves on the disk and in memory. */
module LogSerial {
  import opened Words
  import opened LogHeader
  import opened LogProtocol
  import opened LogTheorems
  import opened LogRuns
  import opened Transactions

  /** Steps of one transaction: begin_op, a log_write per update, end_op, the writes of the commit, its end. */
  function TxLen(tx: seq<Update>): nat {
    |tx| + 3 + CommitLen(|Touched(tx)|)
  }

  function TxStep(p: nat, tx: seq<Update>, j: nat): Label {
    if j == 0 then Begin(p)
    else if j <= |tx| then LogWrite(p, tx[j - 1].b, tx[j - 1].v)
    else if j == |tx| + 1 then End(p)
    else if j < TxLen(tx) - 1 then Write
    else Done
  }

  function TxSteps(p: nat, tx: seq<Update>): (ls: seq<Label>)
    ensures |ls| == TxLen(tx)
    ensures forall j :: 0 <= j < |ls| ==> ls[j] == TxStep(p, tx, j)
  {
    seq(TxLen(tx), j requires 0 <= j < TxLen(tx) => TxStep(p, tx, j))
  }

  /** The log takes the transaction: it changes home blocks only, and no more than an operation may. */
  ghost predicate Loggable(c: Config, tx: seq<Update>) {
    && |Touched(tx)| <= MAXOPBLOCKS < c.size - 1
    && forall k :: 0 <= k < |tx| ==> c.IsHome(tx[k].b)
  }

  // ---------------------------------------------------------------- the states of one transaction

  /** The header of the commit is on the disk after `j` steps. */
  predicate Committed(tx: seq<Update>, j: nat) {
    j > |tx| + 2 + |Touched(tx)|
  }

  /** The updates that system calls see after `j` steps. */
  function Seen(tx: seq<Update>, j: nat): seq<Update> {
    if j == 0 then [] else if j <= |tx| + 1 then tx[..j - 1] else tx
  }

  ghost predicate Alone(ops: seq<Op>, p: nat, unused: nat) {
    p < |ops| && ops[p] == Inside(unused) && forall q :: 0 <= q < |ops| && q != p ==> ops[q].Outside?
  }

  /** Where the log stands after `j` steps of a transaction of process `p`. */
  ghost predicate Stage(p: nat, tx: seq<Update>, j: nat, t: State) {
    if j == 0 || j == TxLen(tx) then t.pc.Normal? && Quiet(t.ops)
    else if j <= |tx| + 1 then
      && t.pc.Normal? && t.lh == Touched(tx[..j - 1]) && |t.lh| <= MAXOPBLOCKS
      && Alone(t.ops, p, MAXOPBLOCKS - |t.lh|)
    else t.pc == Commit(j - |tx| - 2) && t.lh == Touched(tx)
  }

  ghost predicate TxAt(c: Config, start: seq<Block>, p: nat, tx: seq<Update>, j: nat, t: State) {
    && Inv(c, t) && Stage(p, tx, j, t)
    && StoreIs(c, t, if Committed(tx, j) then Apply(start, tx) else start, Apply(start, Seen(tx, j)))
  }

  /** The header write of a commit makes the current blocks durable; a `log_write` changes the current ones. */
  lemma NextStore(c: Config, s: State, l: Label, durable: seq<Block>, current: seq<Block>)
    requires Inv(c, s) && Enabled(c, s, l) && !l.Crash? && StoreIs(c, s, durable, current)
    ensures Inv(c, Step(c, s, l))
    ensures StoreIs(c, Step(c, s, l), if CommitPoint(s, l) then current else durable,
                    if l.LogWrite? && l.b < |current| then current[l.b := l.v] else current)
  {
    hide Durable, HomeOf;
    StepRefines(c, s, l);
  }

  /** An idle log has room for one operation. */
  lemma IdleLog(c: Config, s: State, p: nat)
    requires Inv(c, s) && s.pc.Normal? && Quiet(s.ops) && p < NPROC
    ensures s.lh == [] && Enabled(c, s, Begin(p))
  {
    QuietHasRoom(c, s);
  }

  lemma BeginStage(c: Config, p: nat, tx: seq<Update>, s: State)
    requires Inv(c, s) && Stage(p, tx, 0, s) && p < NPROC
    ensures Enabled(c, s, Begin(p)) && Stage(p, tx, 1, Step(c, s, Begin(p)))
  {
    IdleLog(c, s, p);
    assert tx[..0] == [];
  }

  lemma WriteStage(c: Config, p: nat, tx: seq<Update>, j: nat, s: State)
    requires Inv(c, s) && Loggable(c, tx) && 0 < j <= |tx| && Stage(p, tx, j, s)
    ensures Enabled(c, s, TxStep(p, tx, j)) && Stage(p, tx, j + 1, Step(c, s, TxStep(p, tx, j)))
  {
    hide Touched, Inv, Outstanding;
    TouchedPrefix(tx, j);
    TouchedOne(tx, j);
    InvShape(c, s);
    Busy(s.ops, p);
  }

  lemma TouchedOne(tx: seq<Update>, j: nat)
    requires 0 < j <= |tx|
    ensures Touched(tx[..j]) == Touched(tx[..j - 1]) + if tx[j - 1].b in Touched(tx[..j - 1]) then [] else [tx[j - 1].b]
  {
    assert tx[..j][..j - 1] == tx[..j - 1];
  }

  lemma InvShape(c: Config, s: State)
    requires Inv(c, s)
    ensures Fits(c, s.disk, s.cache, s.lh) && |s.pins| == c.nblocks && |s.ops| == NPROC
  {
  }

  lemma Busy(ops: seq<Op>, p: nat)
    requires p < |ops| && ops[p].Inside?
    ensures Outstanding(ops) >= 1
  {
  }

  lemma EndStage(c: Config, p: nat, tx: seq<Update>, s: State)
    requires Inv(c, s) && Stage(p, tx, |tx| + 1, s)
    ensures Enabled(c, s, End(p)) && Stage(p, tx, |tx| + 2, Step(c, s, End(p)))
  {
    assert tx[..|tx|] == tx;
    assert Quiet(s.ops[p := Outside]);
  }

  lemma CommitStage(c: Config, p: nat, tx: seq<Update>, j: nat, s: State)
    requires Inv(c, s) && |tx| + 2 <= j < TxLen(tx) && Stage(p, tx, j, s)
    ensures Enabled(c, s, TxStep(p, tx, j)) && Stage(p, tx, j + 1, Step(c, s, TxStep(p, tx, j)))
    ensures CommitPoint(s, TxStep(p, tx, j)) ==> j == |tx| + 2 + |Touched(tx)|
    ensures j == |tx| + 2 + |Touched(tx)| ==> CommitPoint(s, TxStep(p, tx, j)) || Touched(tx) == []
  {
    hide LogCopied, HeadIs, Installed, Pinned, Clean, Recoverable, NextWrite, Touched, NormalInv, RecoverInv;
  }

  lemma TouchedNone(tx: seq<Update>)
    requires Touched(tx) == []
    ensures tx == []
  {
  }

  /** Each step of a transaction is possible where it comes, and leads to the next stage. */
  lemma TxNext(c: Config, start: seq<Block>, p: nat, tx: seq<Update>, j: nat, s: State)
    requires Loggable(c, tx) && p < NPROC && |start| == c.nblocks && j < TxLen(tx) && TxAt(c, start, p, tx, j, s)
    ensures Enabled(c, s, TxStep(p, tx, j)) && TxAt(c, start, p, tx, j + 1, Step(c, s, TxStep(p, tx, j)))
  {
    hide Inv, StoreIs, StoreRefines, Stage, Enabled, Step;
    var l := TxStep(p, tx, j);
    if j == 0 {
      BeginStage(c, p, tx, s);
      assert tx[..0] == [];
    } else if j <= |tx| {
      WriteStage(c, p, tx, j, s);
      assert tx[..j][..j - 1] == tx[..j - 1];
    } else if j == |tx| + 1 {
      EndStage(c, p, tx, s);
      assert tx[..|tx|] == tx;
    } else {
      CommitStage(c, p, tx, j, s);
      if Touched(tx) == [] {
        TouchedNone(tx);
      }
    }
    NextStore(c, s, l, if Committed(tx, j) then Apply(start, tx) else start, Apply(start, Seen(tx, j)));
  }

  // ---------------------------------------------------------------- whole runs

  lemma ExecOne(c: Config, s: State, ls: seq<Label>, t: State, l: Label)
    requires Exec(c, s, ls) == Some(t) && Inv(c, t) && Enabled(c, t, l)
    ensures Exec(c, s, ls + [l]) == Some(Step(c, t, l))
  {
    assert (ls + [l])[..|ls|] == ls;
  }

  ghost predicate RunAt(c: Config, s: State, ls: seq<Label>, start: seq<Block>, p: nat, tx: seq<Update>, j: nat) {
    Exec(c, s, ls).Some? && TxAt(c, start, p, tx, j, Exec(c, s, ls).value)
  }

  /** The first `j` steps of a transaction, after a run `ls` that left the log idle. */
  lemma {:induction false} TxRun(c: Config, s: State, ls: seq<Label>, start: seq<Block>, p: nat, tx: seq<Update>,
      j: nat)
    requires Loggable(c, tx) && p < NPROC && |start| == c.nblocks && j <= TxLen(tx) && RunAt(c, s, ls, start, p, tx, 0)
    ensures RunAt(c, s, ls + TxSteps(p, tx)[..j], start, p, tx, j)
  {
    hide TxAt, Exec, Enabled, Step;
    var steps := TxSteps(p, tx);
    if j == 0 {
      assert ls + steps[..0] == ls;
    } else {
      TxRun(c, s, ls, start, p, tx, j - 1);
      var t := Exec(c, s, ls + steps[..j - 1]).value;
      TxNext(c, start, p, tx, j - 1, t);
      TxAtInv(c, start, p, tx, j - 1, t);
      ExecOne(c, s, ls + steps[..j - 1], t, steps[j - 1]);
      assert ls + steps[..j - 1] + [steps[j - 1]] == ls + steps[..j];
    }
  }

  lemma TxAtInv(c: Config, start: seq<Block>, p: nat, tx: seq<Update>, j: nat, t: State)
    requires TxAt(c, start, p, tx, j, t)
    ensures Inv(c, t)
  {
  }

  /** The steps of the boot, whose recovery finds an empty log, and of the transactions `txs`, the `k`-th of them
      made by process `ps[k]`. */
  function Serial(ps: seq<nat>, txs: seq<seq<Update>>): seq<Label>
    requires |ps| == |txs|
  {
    if txs == [] then [Write, Done]
    else
      var n := |txs| - 1;
      Serial(ps[..n], txs[..n]) + TxSteps(ps[n], txs[n])
  }

  /** The log is idle and everything that system calls see is durable. */
  ghost predicate Idle(c: Config, blocks: seq<Block>, t: State) {
    Inv(c, t) && t.pc.Normal? && Quiet(t.ops) && StoreIs(c, t, blocks, blocks)
  }

  lemma BootIdle(c: Config, s: State)
    requires Booted(c, s)
    ensures Exec(c, s, [Write, Done]).Some? && Idle(c, HomeOf(c, s.disk), Exec(c, s, [Write, Done]).value)
  {
    hide Inv, StoreIs, StoreRefines, Durable, HomeOf;
    BootStore(c, s);
    ExecOne(c, s, [], s, Write);
    NextStore(c, s, Write, HomeOf(c, s.disk), HomeOf(c, s.disk));
    var t := Step(c, s, Write);
    ExecOne(c, s, [Write], t, Done);
    NextStore(c, t, Done, HomeOf(c, s.disk), HomeOf(c, s.disk));
    assert [] + [Write] == [Write] && [Write] + [Done] == [Write, Done];
  }

  lemma BootStore(c: Config, s: State)
    requires Booted(c, s)
    ensures Inv(c, s) && StoreIs(c, s, HomeOf(c, s.disk), HomeOf(c, s.disk)) && Fits(c, s.disk, s.cache, s.lh)
    ensures |s.pins| == c.nblocks
    ensures s.lh == [] && s.pc == Recover(0) && Quiet(s.ops)
  {
    BootedInv(c, s);
    DurableEmpty(c, s.disk);
  }

  ghost predicate AllLoggable(c: Config, ps: seq<nat>, txs: seq<seq<Update>>) {
    && |ps| == |txs| && (forall k :: 0 <= k < |ps| ==> ps[k] < NPROC)
    && forall k :: 0 <= k < |txs| ==> Loggable(c, txs[k])
  }

  lemma IdleStarts(c: Config, blocks: seq<Block>, p: nat, tx: seq<Update>, t: State)
    requires Idle(c, blocks, t)
    ensures TxAt(c, blocks, p, tx, 0, t)
  {
  }

  lemma EndsIdle(c: Config, blocks: seq<Block>, p: nat, tx: seq<Update>, t: State)
    requires TxAt(c, blocks, p, tx, TxLen(tx), t)
    ensures Idle(c, Apply(blocks, tx), t)
  {
  }

  /** Transactions run one after the other neither panic nor wait, and each of them is durable when it ends. */
  lemma {:induction false} SerialRun(c: Config, s: State, ps: seq<nat>, txs: seq<seq<Update>>)
    requires Booted(c, s) && AllLoggable(c, ps, txs)
    ensures Exec(c, s, Serial(ps, txs)).Some?
    ensures Idle(c, After(HomeOf(c, s.disk), txs), Exec(c, s, Serial(ps, txs)).value)
    decreases |txs|, 1
  {
    hide Idle, TxAt, Exec, Restart, HeadIs, Loggable;
    var n := |txs| - 1;
    if txs == [] {
      BootIdle(c, s);
    } else {
      SerialCut(c, s, ps, txs, TxLen(txs[n]));
      var steps := TxSteps(ps[n], txs[n]);
      assert steps[..TxLen(txs[n])] == steps;
      EndsIdle(c, After(HomeOf(c, s.disk), txs[..n]), ps[n], txs[n], Exec(c, s, Serial(ps, txs)).value);
    }
  }

  /** The same run cut after `j` steps of its last transaction. */
  lemma {:induction false} SerialCut(c: Config, s: State, ps: seq<nat>, txs: seq<seq<Update>>, j: nat)
    requires Booted(c, s) && AllLoggable(c, ps, txs) && txs != [] && j <= TxLen(txs[|txs| - 1])
    ensures
      var n := |txs| - 1;
      RunAt(c, s, Serial(ps[..n], txs[..n]) + TxSteps(ps[n], txs[n])[..j], After(HomeOf(c, s.disk), txs[..n]), ps[n],
          txs[n], j)
    decreases |txs|, 0
  {
    hide Idle, TxAt, Exec, Restart, HeadIs, Loggable;
    var n := |txs| - 1;
    SerialRun(c, s, ps[..n], txs[..n]);
    var ls, start := Serial(ps[..n], txs[..n]), After(HomeOf(c, s.disk), txs[..n]);
    IdleStarts(c, start, ps[n], txs[n], Exec(c, s, ls).value);
    TxRun(c, s, ls, start, ps[n], txs[n], j);
  }
}
