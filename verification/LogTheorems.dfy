/** Safety of the log over every run: group commit, pinning, wakeups and crash atomicity. */
module LogTheorems {
  import opened Words
  import opened LogHeader
  import opened LogProtocol

  // ---------------------------------------------------------------- reservations

  lemma {:induction false} OutstandingUpdate(ops: seq<Op>, p: nat, o: Op)
    requires p < |ops|
    ensures Outstanding(ops[p := o]) + (if ops[p].Inside? then 1 else 0) ==
              Outstanding(ops) + (if o.Inside? then 1 else 0)
  {
    var l := |ops| - 1;
    if p < l {
      assert ops[p := o][..l] == ops[..l][p := o];
      OutstandingUpdate(ops[..l], p, o);
    } else {
      assert ops[p := o][..l] == ops[..l];
    }
  }

  function Room(o: Op): nat {
    if o.Inside? then o.unused else 0
  }

  lemma {:induction false} UnusedUpdate(ops: seq<Op>, p: nat, o: Op)
    requires p < |ops|
    ensures Unused(ops[p := o]) + Room(ops[p]) == Unused(ops) + Room(o)
  {
    var l := |ops| - 1;
    if p < l {
      assert ops[p := o][..l] == ops[..l][p := o];
      UnusedUpdate(ops[..l], p, o);
    } else {
      assert ops[p := o][..l] == ops[..l];
    }
  }

  lemma {:induction false} UnusedBounded(ops: seq<Op>)
    requires forall p :: 0 <= p < |ops| && ops[p].Inside? ==> ops[p].unused <= MAXOPBLOCKS
    ensures Unused(ops) <= Outstanding(ops) * MAXOPBLOCKS
  {
    if ops != [] {
      var l := |ops| - 1;
      assert forall p :: 0 <= p < l ==> ops[p] == ops[..l][p];
      UnusedBounded(ops[..l]);
    }
  }

  lemma {:induction false} RoomBelowUnused(ops: seq<Op>, p: nat)
    requires p < |ops|
    ensures Room(ops[p]) <= Unused(ops)
  {
    var l := |ops| - 1;
    if p < l {
      RoomBelowUnused(ops[..l], p);
    }
  }

  // ---------------------------------------------------------------- single block writes

  function IndexOf(blocks: seq<nat>, b: nat): (i: nat)
    requires b in blocks
    ensures i < |blocks| && blocks[i] == b
  {
    if blocks[0] == b then 0 else 1 + IndexOf(blocks[1..], b)
  }

  ghost predicate SameHome(c: Config, d: seq<Block>, e: seq<Block>) {
    |d| == |e| == c.nblocks && forall b :: 0 <= b < c.nblocks && c.IsHome(b) ==> d[b] == e[b]
  }

  /** Copying a logged block into its log slot. */
  lemma CopyEffect(c: Config, disk: seq<Block>, cache: seq<Block>, lh: seq<nat>, k: nat)
    requires Fits(c, disk, cache, lh) && Clean(disk, cache, lh) && k < |lh| && LogCopied(c, disk, cache, lh, k)
    ensures
      var d, e := disk[c.start + 1 + k := cache[lh[k]]], cache[c.start + 1 + k := cache[lh[k]]];
      && Fits(c, d, e, lh) && Clean(d, e, lh) && LogCopied(c, d, e, lh, k + 1)
      && d[c.start] == disk[c.start] && SameHome(c, disk, d) && SameHome(c, cache, e)
  {
    assert forall i :: 0 <= i < |lh| ==> c.IsHome(lh[i]);
  }

  /** Writing any content `v` into the header block. */
  lemma HeadEffect(c: Config, disk: seq<Block>, cache: seq<Block>, lh: seq<nat>, k: nat, v: Block)
    requires Fits(c, disk, cache, lh) && Clean(disk, cache, lh) && k <= |lh|
    requires LogCopied(c, disk, cache, lh, |lh|) && Installed(c, disk, lh, k)
    ensures
      var d, e := disk[c.start := v], cache[c.start := v];
      && Fits(c, d, e, lh) && Clean(d, e, lh) && LogCopied(c, d, e, lh, |lh|) && Installed(c, d, lh, k)
      && SameHome(c, disk, d) && SameHome(c, cache, e)
  {
    assert forall i :: 0 <= i < |lh| ==> c.IsHome(lh[i]);
  }

  lemma LogAreaClean(c: Config, disk: seq<Block>, cache: seq<Block>, lh: seq<nat>, i: nat)
    requires Fits(c, disk, cache, lh) && Clean(disk, cache, lh) && i <= c.size - 1
    ensures cache[c.start + i] == disk[c.start + i]
  {
    assert forall j :: 0 <= j < |lh| ==> c.IsHome(lh[j]);
  }

  /** Putting a logged block home. */
  lemma InstallEffect(c: Config, disk: seq<Block>, cache: seq<Block>, lh: seq<nat>, i: nat)
    requires Fits(c, disk, cache, lh) && Clean(disk, cache, lh) && i < |lh| && Distinct(lh)
    requires LogCopied(c, disk, cache, lh, |lh|) && Installed(c, disk, lh, i)
    ensures cache[c.start + 1 + i] == cache[lh[i]]
    ensures
      var d := disk[lh[i] := cache[lh[i]]];
      && Fits(c, d, cache, lh) && Clean(d, cache, lh) && LogCopied(c, d, cache, lh, |lh|) && Installed(c, d, lh, i + 1)
      && d[c.start] == disk[c.start]
  {
    LogAreaClean(c, disk, cache, lh, i + 1);
    var d := disk[lh[i] := cache[lh[i]]];
    assert c.IsHome(lh[i]);
    forall j | 0 <= j < i + 1 ensures d[lh[j]] == d[c.start + 1 + j] {
      assert c.IsHome(lh[j]);
    }
  }

  lemma AllInstalled(c: Config, disk: seq<Block>, cache: seq<Block>, lh: seq<nat>)
    requires Fits(c, disk, cache, lh) && Clean(disk, cache, lh)
    requires LogCopied(c, disk, cache, lh, |lh|) && Installed(c, disk, lh, |lh|)
    ensures cache == disk
  {
    forall b | 0 <= b < c.nblocks ensures cache[b] == disk[b] {
      if b in lh {
        var i := IndexOf(lh, b);
        assert lh[i] == b;
      }
    }
  }

  // ---------------------------------------------------------------- what a crash leaves behind

  /** The home blocks of a disk or of the cache; the log area is masked. */
  function HomeOf(c: Config, blocks: seq<Block>): (r: seq<Block>)
    requires |blocks| == c.nblocks
    ensures |r| == c.nblocks
  {
    seq(c.nblocks, b requires 0 <= b < c.nblocks => if c.IsHome(b) then blocks[b] else Zeros(BSIZE))
  }

  lemma SameHomeOf(c: Config, d: seq<Block>, e: seq<Block>)
    requires SameHome(c, d, e)
    ensures HomeOf(c, d) == HomeOf(c, e)
  {
  }

  /** Content of block `b` once the transaction named in the header has been replayed. */
  function Replayed(c: Config, disk: seq<Block>, b: nat): Block
    requires Recoverable(c, disk) && b < c.nblocks
  {
    var blocks := DecodeHead(disk[c.start]);
    if b in blocks then disk[c.start + 1 + IndexOf(blocks, b)] else disk[b]
  }

  /** The home blocks that survive a crash now. */
  function Durable(c: Config, disk: seq<Block>): (r: seq<Block>)
    requires Recoverable(c, disk)
    ensures |r| == c.nblocks
  {
    seq(c.nblocks, b requires 0 <= b < c.nblocks => if c.IsHome(b) then Replayed(c, disk, b) else Zeros(BSIZE))
  }

  /** With an empty header a crash leaves the home blocks as they are on the disk. */
  lemma DurableEmpty(c: Config, disk: seq<Block>)
    requires Recoverable(c, disk) && HeadIs(c, disk, [])
    ensures Durable(c, disk) == HomeOf(c, disk)
  {
  }

  /** With the transaction `lh` in the header a crash leaves the log copies of its blocks. */
  lemma DurableLogged(c: Config, disk: seq<Block>, cache: seq<Block>, lh: seq<nat>)
    requires Fits(c, disk, cache, lh) && Recoverable(c, disk) && HeadIs(c, disk, lh)
    requires Clean(disk, cache, lh) && LogCopied(c, disk, cache, lh, |lh|)
    ensures Durable(c, disk) == HomeOf(c, cache)
  {
  }

  /** The specification: a store whose updates become durable all at once or are lost in a crash. */
  datatype Store = Store(durable: seq<Block>, current: seq<Block>)

  function StoreOf(c: Config, s: State): Store
    requires Recoverable(c, s.disk) && |s.cache| == c.nblocks
  {
    Store(Durable(c, s.disk), if s.pc.Recover? then Durable(c, s.disk) else HomeOf(c, s.cache))
  }

  /** The header write of `commit`: the only step that changes what a crash leaves. */
  predicate CommitPoint(s: State, l: Label) {
    l.Write? && s.pc.Commit? && s.pc.k == |s.lh|
  }

  function StoreStep(a: Store, l: Label, commits: bool): Store {
    match l
    case LogWrite(p, b, v) => if b < |a.current| then a.(current := a.current[b := v]) else a
    case Crash => a.(current := a.durable)
    case Write => if commits then a.(durable := a.current) else a
    case _ => a
  }

  /** The step from `s` to `t` is a step of the atomic store. */
  ghost predicate StoreRefines(c: Config, s: State, l: Label, t: State) {
    && Recoverable(c, s.disk) && |s.cache| == c.nblocks
    && Recoverable(c, t.disk) && |t.cache| == c.nblocks
    && StoreOf(c, t) == StoreStep(StoreOf(c, s), l, CommitPoint(s, l))
  }

  ghost predicate Refines(c: Config, s: State, l: Label, t: State) {
    Inv(c, t) && StoreRefines(c, s, l, t)
  }

  // ---------------------------------------------------------------- every step refines the store

  lemma BeginRefines(c: Config, s: State, p: nat)
    requires Inv(c, s) && Enabled(c, s, Begin(p))
    ensures Refines(c, s, Begin(p), Step(c, s, Begin(p)))
  {
    var t := Step(c, s, Begin(p));
    UnusedUpdate(s.ops, p, Inside(MAXOPBLOCKS));
    UnusedBounded(s.ops);
    assert t.ops[p].Inside?;
  }

  lemma QuietHasRoom(c: Config, s: State)
    requires NormalInv(c, s)
    ensures Quiet(s.ops) ==> !LogFull(s)
  {
    if Quiet(s.ops) {
      assert Outstanding(s.ops) == 0;
    }
  }

  lemma SleepRefines(c: Config, s: State, p: nat)
    requires Inv(c, s) && Enabled(c, s, Sleep(p))
    ensures Refines(c, s, Sleep(p), Step(c, s, Sleep(p)))
  {
    var t := s.(sleepers := s.sleepers + {p});
    assert WellFormed(c, t);
    if s.pc.Normal? {
      QuietHasRoom(c, s);
      assert NormalInv(c, t);
    } else {
      assert CommitInv(c, t, t.pc.k);
    }
  }

  lemma LogWriteRefines(c: Config, s: State, p: nat, b: nat, v: Block)
    requires Inv(c, s) && Enabled(c, s, LogWrite(p, b, v))
    ensures Refines(c, s, LogWrite(p, b, v), Step(c, s, LogWrite(p, b, v)))
  {
    LogWriteInv(c, s, p, b, v);
    assert HomeOf(c, s.cache[b := v]) == HomeOf(c, s.cache)[b := v];
  }

  lemma LogWriteInv(c: Config, s: State, p: nat, b: nat, v: Block)
    requires Inv(c, s) && Enabled(c, s, LogWrite(p, b, v))
    ensures Inv(c, Step(c, s, LogWrite(p, b, v)))
  {
    var t := Step(c, s, LogWrite(p, b, v));
    assert t.ops[p].Inside?;
    if b !in s.lh {
      UnusedUpdate(s.ops, p, Inside(s.ops[p].unused - 1));
      RoomBelowUnused(s.ops, p);
    }
    assert Fits(c, t.disk, t.cache, t.lh);
    assert b in t.lh;
    assert WellFormed(c, t);
  }

  lemma EndRefines(c: Config, s: State, p: nat)
    requires Inv(c, s) && Enabled(c, s, End(p))
    ensures Refines(c, s, End(p), Step(c, s, End(p)))
  {
    UnusedUpdate(s.ops, p, Outside);
  }

  /** Equal parts make equal stores. */
  lemma StoreParts(c: Config, s: State, t: State, home: seq<Block>)
    requires Recoverable(c, s.disk) && Recoverable(c, t.disk) && |s.cache| == |t.cache| == c.nblocks
    requires !s.pc.Recover? && !t.pc.Recover?
    requires Durable(c, t.disk) == home && HomeOf(c, t.cache) == HomeOf(c, s.cache)
    ensures StoreOf(c, t) == StoreOf(c, s).(durable := home)
  {
  }

  lemma CopyInv(c: Config, s: State)
    requires Inv(c, s) && s.pc.Commit? && s.pc.k < |s.lh|
    ensures CanWrite(c, s) && Inv(c, WriteStep(c, s))
    ensures HeadIs(c, s.disk, []) && HeadIs(c, WriteStep(c, s).disk, [])
    ensures SameHome(c, s.disk, WriteStep(c, s).disk) && SameHome(c, s.cache, WriteStep(c, s).cache)
  {
    var t := WriteStep(c, s);
    CopyEffect(c, s.disk, s.cache, s.lh, s.pc.k);
    assert WellFormed(c, t);
  }

  /** Copying a block into the log before the header is written is invisible. */
  lemma CopyRefines(c: Config, s: State)
    requires Inv(c, s) && s.pc.Commit? && s.pc.k < |s.lh|
    ensures CanWrite(c, s) && Refines(c, s, Write, WriteStep(c, s))
  {
    CopyInv(c, s);
    var t := WriteStep(c, s);
    DurableEmpty(c, s.disk);
    DurableEmpty(c, t.disk);
    SameHomeOf(c, s.disk, t.disk);
    SameHomeOf(c, s.cache, t.cache);
    StoreParts(c, s, t, Durable(c, s.disk));
  }

  lemma HeadInv(c: Config, s: State)
    requires Inv(c, s) && s.pc.Commit? && 0 < |s.lh| == s.pc.k
    ensures CanWrite(c, s) && Inv(c, WriteStep(c, s))
    ensures SameHome(c, s.cache, WriteStep(c, s).cache)
  {
    var t := WriteStep(c, s);
    HeadEffect(c, s.disk, s.cache, s.lh, 0, EncodeHead(s.cache[c.start], s.lh));
    assert WellFormed(c, t);
  }

  /** The header write makes the whole transaction durable. */
  lemma HeadRefines(c: Config, s: State)
    requires Inv(c, s) && s.pc.Commit? && 0 < |s.lh| == s.pc.k
    ensures CanWrite(c, s) && Refines(c, s, Write, WriteStep(c, s))
  {
    hide Durable, HomeOf, NextWrite, LogCopied, HeadIs, Installed, Clean, Pinned, SameHome;
    HeadInv(c, s);
    var t := WriteStep(c, s);
    DurableLogged(c, t.disk, t.cache, t.lh);
    SameHomeOf(c, s.cache, t.cache);
    StoreParts(c, s, t, HomeOf(c, s.cache));
  }

  lemma UnpinFirst(pins: seq<int>, lh: seq<nat>, i: nat)
    requires i < |lh| && Distinct(lh) && lh[i] < |pins| && Pinned(pins, lh, i)
    ensures Pinned(pins[lh[i] := pins[lh[i]] - 1], lh, i + 1)
  {
    assert lh[i..] == [lh[i]] + lh[i + 1..];
  }

  lemma InstallIs(c: Config, s: State, i: nat)
    requires Fits(c, s.disk, s.cache, s.lh)
    requires i < |s.lh| && s.pc == Commit(|s.lh| + 1 + i) && |s.pins| == c.nblocks
    requires s.cache[c.start + 1 + i] == s.cache[s.lh[i]]
    ensures CanWrite(c, s)
    ensures WriteStep(c, s) == s.(disk := s.disk[s.lh[i] := s.cache[s.lh[i]]],
                                  pins := s.pins[s.lh[i] := s.pins[s.lh[i]] - 1],
                                  pc := Commit(s.pc.k + 1))
  {
    var b := s.lh[i];
    assert NextWrite(c, s) == (b, s.cache[b]);
    assert s.cache == s.cache[b := s.cache[b]];
  }

  lemma InstallInv(c: Config, s: State)
    requires Inv(c, s) && s.pc.Commit? && |s.lh| < s.pc.k <= 2 * |s.lh|
    ensures CanWrite(c, s) && Inv(c, WriteStep(c, s))
    ensures WriteStep(c, s).cache == s.cache && WriteStep(c, s).pc.Commit?
    ensures Durable(c, WriteStep(c, s).disk) == HomeOf(c, s.cache)
  {
    hide Durable, HomeOf, NextWrite, WriteStep, CanWrite, LogCopied, Installed, Clean, Pinned, HeadIs, Recoverable,
        Fits;
    var i := s.pc.k - |s.lh| - 1;
    InstallEffect(c, s.disk, s.cache, s.lh, i);
    InstallIs(c, s, i);
    LoggedInRange(c, s, i);
    UnpinFirst(s.pins, s.lh, i);
    var t := WriteStep(c, s);
    SameHead(c, s.disk, t.disk, s.lh);
    DurableLogged(c, t.disk, t.cache, t.lh);
  }

  lemma LoggedInRange(c: Config, s: State, i: nat)
    requires Fits(c, s.disk, s.cache, s.lh) && i < |s.lh| && |s.pins| == c.nblocks
    ensures s.lh[i] < |s.pins| && |s.disk| == |s.cache| == c.nblocks
  {
    assert c.IsHome(s.lh[i]);
  }

  lemma SameHead(c: Config, d: seq<Block>, e: seq<Block>, lh: seq<nat>)
    requires Recoverable(c, d) && |e| == |d| && HeadIs(c, d, lh) && e[c.start] == d[c.start]
    ensures Recoverable(c, e) && HeadIs(c, e, lh)
  {
  }

  lemma InstallRefines(c: Config, s: State)
    requires Inv(c, s) && s.pc.Commit? && |s.lh| < s.pc.k <= 2 * |s.lh|
    ensures CanWrite(c, s) && Refines(c, s, Write, WriteStep(c, s))
  {
    InstallInv(c, s);
    DurableLogged(c, s.disk, s.cache, s.lh);
    StoreParts(c, s, WriteStep(c, s), HomeOf(c, s.cache));
  }

  /** Erasing the header after the last install is invisible. */
  lemma ClearRefines(c: Config, s: State)
    requires Inv(c, s) && s.pc.Commit? && 0 < |s.lh| && s.pc.k == 2 * |s.lh| + 1
    ensures CanWrite(c, s) && Refines(c, s, Write, WriteStep(c, s))
  {
    var t := WriteStep(c, s);
    HeadEffect(c, s.disk, s.cache, s.lh, |s.lh|, EncodeHead(s.cache[c.start], []));
    assert WellFormed(c, t);
    AllInstalled(c, t.disk, t.cache, t.lh);
    DurableLogged(c, s.disk, s.cache, s.lh);
    DurableEmpty(c, t.disk);
    SameHomeOf(c, s.cache, t.cache);
  }

  lemma ReplayEffect(c: Config, disk: seq<Block>, lh: seq<nat>, k: nat)
    requires Fits(c, disk, disk, lh) && Distinct(lh) && k < |lh| && Installed(c, disk, lh, k)
    ensures
      var d := disk[lh[k] := disk[c.start + 1 + k]];
      Fits(c, d, d, lh) && Installed(c, d, lh, k + 1) && forall b :: c.start <= b < c.start + c.size ==> d[b] == disk[b]
  {
    assert forall j :: 0 <= j < |lh| ==> c.IsHome(lh[j]);
  }

  /** Replaying a block does not change what another crash would leave. */
  lemma ReplayDurable(c: Config, d: seq<Block>, e: seq<Block>, b: nat)
    requires Recoverable(c, d) && Recoverable(c, e)
    requires forall x :: c.start <= x < c.start + c.size ==> e[x] == d[x]
    requires b in DecodeHead(d[c.start])
    requires forall i :: 0 <= i < c.nblocks && i != b ==> e[i] == d[i]
    ensures Durable(c, e) == Durable(c, d)
  {
    forall x | 0 <= x < c.nblocks ensures Replayed(c, e, x) == Replayed(c, d, x) {
    }
  }

  lemma ReplayRefines(c: Config, s: State)
    requires Inv(c, s) && s.pc.Recover? && s.pc.k < |s.lh|
    ensures CanWrite(c, s) && Refines(c, s, Write, WriteStep(c, s))
  {
    hide Inv, Durable, HomeOf, CanWrite, WriteStep;
    ReplayInv(c, s);
    ReplayStore(c, s, WriteStep(c, s));
  }

  lemma ReplayInv(c: Config, s: State)
    requires Inv(c, s) && s.pc.Recover? && s.pc.k < |s.lh|
    ensures Fits(c, s.disk, s.cache, s.lh) && |s.pins| == c.nblocks && CanWrite(c, s) && Inv(c, WriteStep(c, s))
    ensures WriteStep(c, s).pc.Recover? && Recoverable(c, s.disk) && Recoverable(c, WriteStep(c, s).disk)
    ensures Durable(c, WriteStep(c, s).disk) == Durable(c, s.disk)
  {
    hide Durable, Pinned;
    ReplayIs(c, s);
    var t := WriteStep(c, s);
    ReplayEffect(c, s.disk, s.lh, s.pc.k);
    assert t.disk[c.start] == s.disk[c.start];
    assert WellFormed(c, t);
    ReplayDurable(c, s.disk, t.disk, s.lh[s.pc.k]);
  }

  lemma ReplayIs(c: Config, s: State)
    requires Fits(c, s.disk, s.cache, s.lh) && |s.pins| == c.nblocks && s.cache == s.disk && s.pc.Recover?
    requires s.pc.k < |s.lh|
    ensures CanWrite(c, s)
    ensures
      var d := s.disk[s.lh[s.pc.k] := s.disk[c.start + 1 + s.pc.k]];
      WriteStep(c, s) == s.(disk := d, cache := d, pc := Recover(s.pc.k + 1))
  {
  }

  lemma ReplayStore(c: Config, s: State, t: State)
    requires Inv(c, s) && Inv(c, t) && s.pc.Recover? && t.pc.Recover?
    requires Recoverable(c, s.disk) && Recoverable(c, t.disk) && Durable(c, t.disk) == Durable(c, s.disk)
    ensures StoreRefines(c, s, Write, t)
  {
    hide Durable, HomeOf;
  }

  lemma DurableReplayed(c: Config, disk: seq<Block>, lh: seq<nat>)
    requires Fits(c, disk, disk, lh) && Recoverable(c, disk) && HeadIs(c, disk, lh) && Installed(c, disk, lh, |lh|)
    ensures Durable(c, disk) == HomeOf(c, disk)
  {
  }

  lemma ReplayClearRefines(c: Config, s: State)
    requires Inv(c, s) && s.pc.Recover? && s.pc.k == |s.lh|
    ensures CanWrite(c, s) && Refines(c, s, Write, WriteStep(c, s))
  {
    var t := WriteStep(c, s);
    assert LogCopied(c, s.disk, s.cache, s.lh, |s.lh|);
    HeadEffect(c, s.disk, s.cache, s.lh, |s.lh|, EncodeHead(s.cache[c.start], []));
    assert WellFormed(c, t);
    DurableReplayed(c, s.disk, s.lh);
    DurableEmpty(c, t.disk);
    SameHomeOf(c, s.disk, t.disk);
  }

  lemma WriteRefines(c: Config, s: State)
    requires Inv(c, s) && CanWrite(c, s)
    ensures Refines(c, s, Write, WriteStep(c, s))
  {
    var n := |s.lh|;
    if s.pc.Recover? {
      if s.pc.k < n { ReplayRefines(c, s); } else { ReplayClearRefines(c, s); }
    } else if s.pc.k < n {
      CopyRefines(c, s);
    } else if s.pc.k == n {
      HeadRefines(c, s);
    } else if s.pc.k <= 2 * n {
      InstallRefines(c, s);
    } else {
      ClearRefines(c, s);
    }
  }

  lemma DoneClean(c: Config, s: State)
    requires Inv(c, s) && Enabled(c, s, Done)
    ensures s.cache == s.disk && HeadIs(c, s.disk, []) && Pinned(s.pins, s.lh, |s.lh|)
  {
    if s.pc.Commit? && s.lh != [] {
      AllInstalled(c, s.disk, s.cache, s.lh);
    }
  }

  lemma DoneRefines(c: Config, s: State)
    requires Inv(c, s) && Enabled(c, s, Done)
    ensures Refines(c, s, Done, Step(c, s, Done))
  {
    DoneClean(c, s);
    UnusedBounded(s.ops);
    DurableEmpty(c, s.disk);
  }

  /** A crash in any state leads to a recovery that can start. */
  lemma CrashRefines(c: Config, s: State)
    requires Inv(c, s)
    ensures Enabled(c, s, Crash) && Refines(c, s, Crash, Step(c, s, Crash))
  {
    var t := Step(c, s, Crash);
    assert t.lh == s.lh || t.lh == [];
  }

  /** Every step of the log, crashes and recovery included, is a step of the atomic store. */
  lemma StepRefines(c: Config, s: State, l: Label)
    requires Inv(c, s) && Enabled(c, s, l)
    ensures Refines(c, s, l, Step(c, s, l))
  {
    match l
    case Begin(p) => BeginRefines(c, s, p);
    case Sleep(p) => SleepRefines(c, s, p);
    case LogWrite(p, b, v) => LogWriteRefines(c, s, p, b, v);
    case End(p) => EndRefines(c, s, p);
    case Write => WriteRefines(c, s);
    case Done => DoneRefines(c, s);
    case Crash => CrashRefines(c, s);
  }
}
