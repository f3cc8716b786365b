/** When "too big a transaction" can and cannot be reached. */
module LogPanics {
  import opened Words
  import opened LogHeader
  import opened LogProtocol
  import opened LogTheorems
  import opened LogRuns

  /** A running operation that may still add a block. */
  predicate HasRoom(t: State, p: nat) {
    t.pc.Normal? && p < |t.ops| && t.ops[p].Inside? && t.ops[p].unused > 0
  }

  /** With more than LOGSIZE log blocks, `log_write` never panics for an operation within its reservation. */
  lemma ReservedNeverPanics(c: Config, s: State, ls: seq<Label>, t: State, p: nat)
    requires Reaches(c, s, ls, t) && HasRoom(t, p) && c.size > LOGSIZE
    ensures !LogWritePanics(c, t)
  {
    RunInv(c, s, ls, t);
    RoomBelowUnused(t.ops, p);
  }

  // ---------------------------------------------------------------- a run that fills the log

  /** The `i`-th home block. */
  function Home(c: Config, i: nat): nat {
    if i < c.start then i else i + c.size
  }

  /** Reservation left to operation `p` after `m` new blocks, taken ten by ten from operations 0, 1 and 2. */
  function Left(p: nat, m: nat): nat {
    if m <= 10 * p then MAXOPBLOCKS else if m >= 10 * p + 10 then 0 else 10 * p + 10 - m
  }

  /** Three operations are running and have logged the first `m` home blocks. */
  ghost predicate Filled(c: Config, t: State, m: nat) {
    && t.pc.Normal? && |t.ops| == NPROC
    && |t.lh| == m && (forall i :: 0 <= i < m ==> t.lh[i] == Home(c, i))
    && (forall p :: 0 <= p < 3 ==> t.ops[p] == Inside(Left(p, m)))
    && t.sleepers == {}
  }

  function BootLabels(): seq<Label> {
    [Write, Done, Begin(0), Begin(1), Begin(2)]
  }

  function FillLabels(c: Config, m: nat): seq<Label> {
    if m == 0 then BootLabels() else FillLabels(c, m - 1) + [LogWrite((m - 1) / 10, Home(c, m - 1), Zeros(BSIZE))]
  }

  lemma ExecStep(c: Config, s: State, ls: seq<Label>, t: State, l: Label)
    requires Reaches(c, s, ls, t)
    ensures Inv(c, t) && (Enabled(c, t, l) ==> Reaches(c, s, ls + [l], Step(c, t, l)))
  {
    RunInv(c, s, ls, t);
    assert (ls + [l])[..|ls|] == ls;
  }

  lemma BeginNext(c: Config, s: State, ls: seq<Label>, t: State, p: nat) returns (u: State)
    requires Reaches(c, s, ls, t) && t.pc.Normal? && t.lh == [] && t.sleepers == {} && p < 3
    requires |t.ops| == NPROC && t.ops[p].Outside? && Outstanding(t.ops) == p
    ensures Reaches(c, s, ls + [Begin(p)], u) && u == t.(ops := t.ops[p := Inside(MAXOPBLOCKS)])
    ensures Outstanding(u.ops) == p + 1
  {
    ExecStep(c, s, ls, t, Begin(p));
    OutstandingUpdate(t.ops, p, Inside(MAXOPBLOCKS));
    u := Step(c, t, Begin(p));
  }

  lemma BootRun(c: Config, s: State) returns (t: State)
    requires Booted(c, s)
    ensures Reaches(c, s, [Write, Done], t) && t.pc.Normal? && t.lh == [] && t.sleepers == {}
    ensures t.ops == seq(NPROC, _ => Outside)
  {
    assert Exec(c, s, []) == Some(s);
    ExecStep(c, s, [], s, Write);
    assert [] + [Write] == [Write];
    var u := Step(c, s, Write);
    ExecStep(c, s, [Write], u, Done);
    assert [Write] + [Done] == [Write, Done];
    t := Step(c, u, Done);
  }

  lemma {:induction false} FillRun(c: Config, s: State, m: nat) returns (t: State)
    requires Booted(c, s) && m <= LOGSIZE && m <= c.size - 1 && c.nblocks >= c.size + LOGSIZE
    ensures Reaches(c, s, FillLabels(c, m), t) && Filled(c, t, m)
  {
    hide Reaches, Booted;
    if m == 0 {
      var t0 := BootRun(c, s);
      assert Outstanding(t0.ops) == 0;
      var t1 := BeginNext(c, s, [Write, Done], t0, 0);
      var t2 := BeginNext(c, s, [Write, Done] + [Begin(0)], t1, 1);
      t := BeginNext(c, s, [Write, Done] + [Begin(0)] + [Begin(1)], t2, 2);
      assert BootLabels() == [Write, Done] + [Begin(0)] + [Begin(1)] + [Begin(2)];
    } else {
      var u := FillRun(c, s, m - 1);
      t := FillNext(c, s, FillLabels(c, m - 1), u, m - 1);
    }
  }

  lemma FillNext(c: Config, s: State, ls: seq<Label>, u: State, m: nat) returns (t: State)
    requires Reaches(c, s, ls, u) && Filled(c, u, m) && m < LOGSIZE && m < c.size - 1 && c.nblocks >= c.size + LOGSIZE
    ensures Reaches(c, s, ls + [LogWrite(m / 10, Home(c, m), Zeros(BSIZE))], t) && Filled(c, t, m + 1)
  {
    hide Exec, Booted, HeadIs, Pinned, Clean, Recoverable, Unused;
    var l := LogWrite(m / 10, Home(c, m), Zeros(BSIZE));
    assert u.ops[m / 10] == Inside(Left(m / 10, m));
    assert Outstanding(u.ops) != 0;
    assert Home(c, m) !in u.lh;
    ExecStep(c, s, ls, u, l);
    t := Step(c, u, l);
  }

  /** `log_write` is panic-free for every operation within its reservation, in every run, exactly if the log area
      has more than LOGSIZE blocks. The image that `mkfs` writes has LOGSIZE of them, so it can panic. */
  lemma LogSizeRule(c: Config, s: State)
    requires Booted(c, s) && c.nblocks >= c.size + LOGSIZE
    ensures c.size > LOGSIZE <==>
            forall ls, t, p :: Reaches(c, s, ls, t) && HasRoom(t, p) ==> !LogWritePanics(c, t)
  {
    if c.size > LOGSIZE {
      forall ls, t, p | Reaches(c, s, ls, t) && HasRoom(t, p)
        ensures !LogWritePanics(c, t)
      {
        ReservedNeverPanics(c, s, ls, t, p);
      }
    } else {
      var m := c.size - 1;
      var t := FillRun(c, s, m);
      assert t.ops[m / 10] == Inside(Left(m / 10, m));
      assert Reaches(c, s, FillLabels(c, m), t) && HasRoom(t, m / 10) && LogWritePanics(c, t);
    }
  }

  /** The size tests come before the search for the block, so with a full log even a write that would be absorbed
      panics: there is a reachable state in which an operation may not rewrite a block it has already logged. */
  lemma AbsorbedWriteCanPanic(c: Config, s: State) returns (t: State, p: nat, b: nat)
    requires Booted(c, s) && c.size > LOGSIZE && c.nblocks >= c.size + LOGSIZE
    ensures Reaches(c, s, FillLabels(c, LOGSIZE), t)
    ensures p < |t.ops| && t.ops[p].Inside? && b in t.lh && LogWritePanics(c, t)
  {
    t := FillRun(c, s, LOGSIZE);
    p, b := 2, t.lh[29];
  }
}
