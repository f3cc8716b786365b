/** Readers, writers and closers of pipes (kernel/pipe.c) as clients of sleep and wakeup: two channels under one lock,
    any number of pipes and processes, any interleaving. Pipe `m` is the data of spin lock `m`. */
module PipeSleep {
  import opened SleepWakeup

  const PIPESIZE := 512

  /** `count` is nwrite - nread. */
  datatype Ring = Ring(count: nat, readopen: bool, writeopen: bool)

  /** The channels &pi->nread, for readers, and &pi->nwrite, for writers. */
  function READ(m: nat): nat { 2 * m }

  function WRITE(m: nat): nat { 2 * m + 1 }

  /** Readers have to wait for an empty pipe that can still be written, writers for a full one that can still be
      read. */
  function Blocked(m: nat, c: nat, d: Ring): bool {
    (c == READ(m) && d.count == 0 && d.writeopen) || (c == WRITE(m) && d.count == PIPESIZE && d.readopen)
  }

  /** What a process is doing. `left` bytes are still to be written or read. */
  datatype Phase =
    | Idle
    | Writing(m: nat, left: nat)        // the loop of pipewrite
    | Full(m: nat, left: nat)           // in it, from wakeup to sleep
    | Reading(m: nat, left: nat)        // the first loop of piperead
    | Taking(m: nat, left: nat)         // the second loop of piperead
    | Taken(m: nat)                     // after it, before wakeup
    | Closing(m: nat, writable: bool)   // pipeclose
    | Shut(m: nat, writable: bool)      // in it, before wakeup
    | Leaving(m: nat)                   // from the last wakeup to release

  datatype System = System(b: State<Ring>, phase: seq<Phase>, killed: seq<bool>)

  /** `ok` says whether the copy from or to the user succeeds. */
  datatype Act =
    | Write(i: nat, m: nat, n: nat)
    | Read(i: nat, m: nat, n: nat)
    | Close(i: nat, m: nat, writable: bool)
    | Continue(i: nat, ok: bool)
    | Pick(i: nat)
    | Slay(i: nat)

  predicate Fits(s: System) {
    Shaped(s.b) && |s.phase| == |s.killed| == |s.b.pc|
  }

  function Shutting(d: Ring, writable: bool): Ring {
    if writable then d.(writeopen := false) else d.(readopen := false)
  }

  /** What process `i` does next inside the lock of pipe `m`, and what it is doing then. */
  function Inside(d: Ring, phase: Phase, killed: bool, ok: bool, i: nat, m: nat): (Label<Ring>, Phase) {
    match phase
    case Idle => (Go(i), Idle)
    case Writing(_, left) =>
      if left == 0 then (Wakeup(i, READ(m)), Leaving(m))
      else if !d.readopen || killed then (Leave(i), Idle)
      else if d.count == PIPESIZE then (Wakeup(i, READ(m)), Full(m, left))
      else if !ok then (Wakeup(i, READ(m)), Leaving(m))
      else (Change(i, d.(count := d.count + 1)), Writing(m, left - 1))
    case Full(_, left) => (Sleep(i, WRITE(m)), Writing(m, left))
    case Reading(_, left) =>
      if d.count == 0 && d.writeopen then
        if killed then (Leave(i), Idle) else (Sleep(i, READ(m)), phase)
      else Take(d, left, ok, i, m)
    case Taking(_, left) => Take(d, left, ok, i, m)
    case Taken(_) => (Wakeup(i, WRITE(m)), Leaving(m))
    case Closing(_, writable) => (Change(i, Shutting(d, writable)), Shut(m, writable))
    case Shut(_, writable) => (Wakeup(i, if writable then READ(m) else WRITE(m)), Leaving(m))
    case Leaving(_) => (Leave(i), Idle)
  }

  /** One turn of the second loop of piperead: a byte is gone even if it cannot be copied out. */
  function Take(d: Ring, left: nat, ok: bool, i: nat, m: nat): (Label<Ring>, Phase) {
    if left == 0 || d.count == 0 then (Wakeup(i, WRITE(m)), Leaving(m))
    else (Change(i, d.(count := d.count - 1)), if ok then Taking(m, left - 1) else Taken(m))
  }

  predicate AtChoice(s: System, i: nat)
    requires Fits(s)
  {
    i < |s.b.pc| && s.b.pc[i].In? && s.b.pc[i].m < |s.b.lk| && !s.phase[i].Idle?
  }

  function Chosen(s: System, i: nat, ok: bool): (Label<Ring>, Phase)
    requires Fits(s) && AtChoice(s, i)
  {
    var m := s.b.pc[i].m;
    Inside(s.b.data[m], s.phase[i], s.killed[i], ok, i, m)
  }

  /** The step of the underlying system that an act is. */
  function LabelOf(s: System, a: Act): Label<Ring>
    requires Fits(s)
  {
    match a
    case Write(i, m, _) => Enter(i, m)
    case Read(i, m, _) => Enter(i, m)
    case Close(i, m, _) => Enter(i, m)
    case Continue(i, ok) => if AtChoice(s, i) then Chosen(s, i, ok).0 else Go(i)
    case Pick(i) => Schedule(i)
    case Slay(i) => Kill(i)
  }

  predicate Possible(s: System, a: Act)
    requires Fits(s)
  {
    Enabled(s.b, LabelOf(s, a)) && (a.Write? || a.Read? || a.Close? ==> s.phase[a.i].Idle?)
  }

  function Act1(s: System, a: Act): (r: System)
    requires Fits(s) && Possible(s, a)
    ensures Fits(r) && |r.phase| == |s.phase|
  {
    var i := a.i;
    var b := Step(s.b, LabelOf(s, a));
    match a
    case Write(_, m, n) => s.(b := b, phase := s.phase[i := Writing(m, n)])
    case Read(_, m, n) => s.(b := b, phase := s.phase[i := Reading(m, n)])
    case Close(_, m, writable) => s.(b := b, phase := s.phase[i := Closing(m, writable)])
    case Continue(_, ok) => if AtChoice(s, i) then s.(b := b, phase := s.phase[i := Chosen(s, i, ok).1]) else s.(b := b)
    case Pick(_) => s.(b := b)
    case Slay(_) => s.(b := b, killed := s.killed[i := true])
  }

  ghost predicate Start(s: System) {
    && Fits(s) && Initial(s.b) && (forall i :: 0 <= i < |s.phase| ==> s.phase[i] == Idle && !s.killed[i])
    && (forall m :: 0 <= m < |s.b.data| ==> s.b.data[m] == Ring(0, true, true))
  }

  ghost predicate ActsTo(s: System, a: Act, s': System) {
    Fits(s) && Possible(s, a) && s' == Act1(s, a)
  }

  ghost predicate History(states: seq<System>, acts: seq<Act>) {
    && |states| == |acts| + 1 && Start(states[0])
    && forall k :: 0 <= k < |acts| ==> ActsTo(states[k], acts[k], states[k + 1])
  }

  // ---------------------------------------------------------------- the invariant

  /** Waits for the lock, has it, or sleeps on `c`. */
  predicate WaitingOn(pc: Pc, m: nat, c: nat) {
    && (pc.WantLk? || pc.In? || pc.Resumed? || pc.SleepEnter? || pc.SleepRelease? || pc.SleepMark? || pc.SleepSwitch?
          || pc.Off?)
    && pc.m == m && (!pc.WantLk? && !pc.In? && !pc.Resumed? ==> pc.c == c)
  }

  /** Inside wakeup(c), or back from it. */
  predicate WakingUp(pc: Pc, woken: set<nat>, m: nat, c: nat) {
    ((pc.Wake? || pc.WakeLocked?) && pc.m == m && pc.c == c) || (pc == In(m) && c in woken)
  }

  /** Since the pipe was `w`, bytes have only been added, and only if it could be read. */
  predicate Filled(w: Ring, d: Ring) {
    d == w.(count := d.count) && w.count <= d.count && (w.count < d.count ==> d.readopen && w.count != PIPESIZE)
  }

  /** Since the pipe was `w`, bytes have only been taken. */
  predicate Drained(w: Ring, d: Ring) {
    d == w.(count := d.count) && d.count <= w.count
  }

  /** `d` is the pipe now, `w` what it was when its lock was acquired. */
  predicate PhaseOk(pc: Pc, phase: Phase, d: Ring, w: Ring, woken: set<nat>) {
    match phase
    case Idle => pc.Outside?
    case Writing(m, left) => WaitingOn(pc, m, WRITE(m)) && (pc.In? ==> Filled(w, d))
    case Full(m, left) => WakingUp(pc, woken, m, READ(m)) && Filled(w, d) && d.count == PIPESIZE && d.readopen
    case Reading(m, left) => WaitingOn(pc, m, READ(m)) && (pc.In? ==> d == w)
    case Taking(m, left) => pc == In(m) && Drained(w, d)
    case Taken(m) => pc == In(m) && Drained(w, d)
    case Closing(m, writable) => pc == WantLk(m) || (pc == In(m) && d == w)
    case Shut(m, writable) => pc == In(m) && d == Shutting(w, writable)
    case Leaving(m) =>
      && (pc == In(m) || ((pc.Wake? || pc.WakeLocked?) && pc.m == m))
      && (var now := if pc.In? then woken else woken + {pc.c};
          && (Blocked(m, READ(m), w) && !Blocked(m, READ(m), d) ==> READ(m) in now)
          && (Blocked(m, WRITE(m), w) && !Blocked(m, WRITE(m), d) ==> WRITE(m) in now))
  }

  ghost predicate InPlace(s: System, i: nat)
    requires Fits(s) && i < |s.phase|
  {
    !(s.phase[i].Idle? && s.b.pc[i].Outside?) ==>
      && !s.phase[i].Idle? && s.phase[i].m < |s.b.lk|
      && var m := s.phase[i].m; PhaseOk(s.b.pc[i], s.phase[i], s.b.data[m], s.b.was[m], s.b.woken[m])
  }

  ghost predicate SysInv(s: System) {
    Fits(s) && Inv(s.b) && forall i :: 0 <= i < |s.phase| ==> InPlace(s, i)
  }

  lemma StartInv(s: System)
    requires Start(s)
    ensures SysInv(s)
  {
    InitialInv(s.b);
  }

  lemma OtherPhase(s: System, a: Act, k: nat)
    requires SysInv(s) && Possible(s, a) && k < |s.phase| && k != a.i
    ensures InPlace(Act1(s, a), k)
  {
    hide LocksOk, StatesOk, Reached, Next, Inside;
    assert InPlace(s, k);
    assert LabelOf(s, a).i == a.i by { ActorOf(s, a); }
    OtherPc(s.b, LabelOf(s, a), k);
    if HoldsLk(s.b.pc[k]) {
      OthersUntouched(s.b, LabelOf(s, a), k, s.b.pc[k].m);
    }
  }

  lemma ActorOf(s: System, a: Act)
    requires Fits(s)
    ensures LabelOf(s, a).i == a.i
  {
  }

  lemma OwnPhase(s: System, a: Act)
    requires SysInv(s) && Possible(s, a)
    ensures a.i < |s.phase| && InPlace(Act1(s, a), a.i)
  {
    hide LocksOk, StatesOk, Reached, LkOk;
    assert InPlace(s, a.i);
    if a.Continue? {
      hide InPlace, SysInv, Act1, Step;
      if AtChoice(s, a.i) {
        ChosenPhase(s, a.i, a.ok);
      } else {
        GonePhase(s, a.i, a.ok);
      }
    } else {
      hide Inside, Next;
    }
  }

  lemma GonePhase(s: System, i: nat, ok: bool)
    requires SysInv(s) && !AtChoice(s, i) && Possible(s, Continue(i, ok))
    ensures i < |s.phase| && InPlace(Act1(s, Continue(i, ok)), i)
  {
    hide LocksOk, StatesOk, Reached, LkOk, Inside, Drained, Blocked, Woken, Shutting;
    assert InPlace(s, i);
  }

  lemma ChosenPhase(s: System, i: nat, ok: bool)
    requires SysInv(s) && AtChoice(s, i) && Possible(s, Continue(i, ok))
    ensures InPlace(Act1(s, Continue(i, ok)), i)
  {
    hide LocksOk, StatesOk, Reached, LkOk, Next, Inside, PhaseOk;
    assert InPlace(s, i);
    var m := s.phase[i].m;
    InPhase(s.b.pc[i], s.phase[i], s.b.data[m], s.b.was[m], s.b.woken[m]);
    InsideOk(s.b.data[m], s.b.was[m], s.b.woken[m], s.phase[i], s.killed[i], ok, i, m);
  }

  /** A process that holds the lock of a pipe is in an operation on that pipe. */
  lemma InPhase(pc: Pc, phase: Phase, d: Ring, w: Ring, woken: set<nat>)
    requires pc.In? && !phase.Idle? && PhaseOk(pc, phase, d, w, woken)
    ensures phase.m == pc.m
  {
  }

  /** What a process inside the lock does next keeps to its phase. */
  lemma InsideOk(d: Ring, w: Ring, woken: set<nat>, phase: Phase, killed: bool, ok: bool, i: nat, m: nat)
    requires PhaseOk(In(m), phase, d, w, woken) && !phase.Idle? && phase.m == m
    ensures
      var (l, next) := Inside(d, phase, killed, ok, i, m);
      && l.i == i && (l.Change? || l.Sleep? || l.Wakeup? || l.Leave?)
      && (if l.Leave? then next == Idle else !next.Idle? && next.m == m)
      && (l.Change? ==> PhaseOk(In(m), next, l.d, w, woken))
      && (l.Sleep? ==> PhaseOk(SleepEnter(m, l.c), next, d, w, woken))
      && (l.Wakeup? ==> PhaseOk(Wake(m, l.c, 0), next, d, w, woken))
  {
  }

  lemma ActInv(s: System, a: Act)
    requires SysInv(s) && Possible(s, a)
    ensures SysInv(Act1(s, a))
  {
    hide Inv, InPlace, Step, LabelOf, Act1;
    var r := Act1(s, a);
    BaseStep(s, a);
    StepInv(s.b, LabelOf(s, a));
    forall k | 0 <= k < |r.phase| ensures InPlace(r, k) {
      if k == a.i {
        OwnPhase(s, a);
      } else {
        OtherPhase(s, a, k);
      }
    }
  }

  lemma BaseStep(s: System, a: Act)
    requires Fits(s) && Possible(s, a)
    ensures Act1(s, a).b == Step(s.b, LabelOf(s, a))
  {
    hide Step, LabelOf;
  }

  lemma {:induction false} HistoryInv(states: seq<System>, acts: seq<Act>, k: nat)
    requires History(states, acts) && k < |states|
    ensures SysInv(states[k])
  {
    hide SysInv, Act1;
    if k == 0 {
      StartInv(states[0]);
    } else {
      HistoryInv(states, acts, k - 1);
      assert ActsTo(states[k - 1], acts[k - 1], states[k]);
      ActInv(states[k - 1], acts[k - 1]);
    }
  }

  // ---------------------------------------------------------------- who breaks the discipline

  /** A killed writer returns from its loop without wakeup, after it has put bytes into a pipe that was empty. */
  ghost predicate Forsakes(s: System, a: Act)
    requires Fits(s)
  {
    && a.Continue? && AtChoice(s, a.i) && s.phase[a.i].Writing? && s.phase[a.i].left > 0 && s.killed[a.i]
    && var m := s.b.pc[a.i].m;
    && s.b.data[m].readopen && s.b.data[m].count > 0 && s.b.was[m].count == 0 && s.b.was[m].writeopen
    && READ(m) !in s.b.woken[m]
  }

  /** This is the only step of any reader, writer or closer that breaks the discipline. */
  lemma ObeysExactly(s: System, a: Act)
    requires SysInv(s) && Possible(s, a)
    ensures Obeys(Blocked, s.b, LabelOf(s, a)) <==> !Forsakes(s, a)
  {
    hide LocksOk, StatesOk, Reached, LkOk;
    assert InPlace(s, a.i);
    if Forsakes(s, a) {
      var m := s.b.pc[a.i].m;
      Unpaid(Blocked, m, s.b.was[m], s.b.data[m], s.b.woken[m], READ(m));
    }
  }

  function Bases(states: seq<System>): (r: seq<State<Ring>>)
    ensures |r| == |states| && forall k :: 0 <= k < |r| ==> r[k] == states[k].b
  {
    seq(|states|, k requires 0 <= k < |states| => states[k].b)
  }

  ghost function Labels(states: seq<System>, acts: seq<Act>): (r: seq<Label<Ring>>)
    requires History(states, acts)
    ensures |r| == |acts|
    ensures forall k ::
              0 <= k < |r| ==> ActsTo(states[k], acts[k], states[k + 1]) && r[k] == LabelOf(states[k], acts[k])
  {
    assert forall k :: 0 <= k < |acts| ==> ActsTo(states[k], acts[k], states[k + 1]);
    seq(|acts|, k requires 0 <= k < |acts| && ActsTo(states[k], acts[k], states[k + 1]) => LabelOf(states[k], acts[k]))
  }

  /** No killed writer forsakes its readers in the first `n` steps. */
  ghost predicate Loyal(states: seq<System>, acts: seq<Act>, n: nat)
    requires History(states, acts)
  {
    forall k :: 0 <= k < |acts| && k < n ==> ActsTo(states[k], acts[k], states[k + 1]) && !Forsakes(states[k], acts[k])
  }

  /** A history in which no killed writer forsakes its readers is a run in which everybody obeys the discipline. */
  lemma LoyalIsMonitored(states: seq<System>, acts: seq<Act>)
    requires History(states, acts) && Loyal(states, acts, |acts|)
    ensures Monitored(Blocked, Bases(states), Labels(states, acts))
  {
    hide SysInv, Obeys, Step, Enabled, LabelOf, Act1, Forsakes;
    var bs, ls := Bases(states), Labels(states, acts);
    forall k | 0 <= k < |acts| ensures StepsTo(bs[k], ls[k], bs[k + 1]) && Obeys(Blocked, bs[k], ls[k]) {
      HistoryInv(states, acts, k);
      assert ActsTo(states[k], acts[k], states[k + 1]) && !Forsakes(states[k], acts[k]);
      BaseStep(states[k], acts[k]);
      ObeysExactly(states[k], acts[k]);
    }
  }

  // ---------------------------------------------------------------- theorems

  /** As long as no killed writer forsakes its readers, whenever a pipe's lock is free nobody sleeps as a reader of it
      unless it is empty and open for writing, or as a writer unless it is full and open for reading. */
  lemma NoReaderOrWriterForgotten(states: seq<System>, acts: seq<Act>, k: nat, m: nat, i: nat)
    requires History(states, acts) && Loyal(states, acts, |acts|) && k < |states|
    requires m < |states[k].b.lk| && m < |states[k].b.data| && states[k].b.lk[m] == NONE
    ensures Committed(states[k].b, i, m, READ(m)) ==> states[k].b.data[m].count == 0 && states[k].b.data[m].writeopen
    ensures Committed(states[k].b, i, m, WRITE(m)) ==>
              states[k].b.data[m].count == PIPESIZE && states[k].b.data[m].readopen
  {
    LoyalIsMonitored(states, acts);
    var bs, ls := Bases(states), Labels(states, acts);
    if Committed(states[k].b, i, m, READ(m)) {
      NoLostWakeup(Blocked, bs, ls, k, i, m, READ(m));
    }
    if Committed(states[k].b, i, m, WRITE(m)) {
      NoLostWakeup(Blocked, bs, ls, k, i, m, WRITE(m));
    }
  }

  /** A reader sleeps, or is about to, although nobody is inside the pipe and it has bytes. */
  ghost predicate Forgotten(s: System, m: nat, i: nat) {
    && m < |s.b.lk| && m < |s.b.data| && s.b.lk[m] == NONE
    && Committed(s.b, i, m, READ(m)) && s.b.data[m].count > 0
  }

  /** The first reader is forgotten exactly when a killed writer forsakes it. */
  lemma ForgottenExactly(states: seq<System>, acts: seq<Act>, n: nat, m: nat, i: nat)
    requires History(states, acts) && n < |acts| && Loyal(states, acts, n)
    ensures ActsTo(states[n], acts[n], states[n + 1])
    ensures Forgotten(states[n + 1], m, i) <==>
              Forsakes(states[n], acts[n]) && states[n].b.pc[acts[n].i].m == m && Committed(states[n].b, i, m, READ(m))
  {
    hide SysInv, Forsakes, Act1, LabelOf;
    assert ActsTo(states[n], acts[n], states[n + 1]);
    HistoryInv(states, acts, n);
    if Forsakes(states[n], acts[n]) {
      Forsaken(states[n], acts[n], m, i);
      NotForgottenYet(states, acts, n, m, i);
    } else {
      NotForgottenYet(states, acts, n + 1, m, i);
    }
  }

  lemma NotForgottenYet(states: seq<System>, acts: seq<Act>, n: nat, m: nat, i: nat)
    requires History(states, acts) && n <= |acts| && Loyal(states, acts, n)
    ensures !Forgotten(states[n], m, i)
  {
    hide Forsakes, Act1, Possible, Start;
    var ss, aa := states[..n + 1], acts[..n];
    assert History(ss, aa) && Loyal(ss, aa, n) by {
      forall k | 0 <= k < n ensures ActsTo(ss[k], aa[k], ss[k + 1]) && !Forsakes(ss[k], aa[k]) {
        assert ActsTo(states[k], acts[k], states[k + 1]);
      }
    }
    if Forgotten(states[n], m, i) {
      NoReaderOrWriterForgotten(ss, aa, n, m, i);
    }
  }

  lemma Forsaken(s: System, a: Act, m: nat, i: nat)
    requires SysInv(s) && Possible(s, a) && Forsakes(s, a)
    ensures Forgotten(Act1(s, a), m, i) && !Forgotten(s, m, i) ==> s.b.pc[a.i].m == m
    ensures s.b.pc[a.i].m == m ==> (Forgotten(Act1(s, a), m, i) <==> Committed(s.b, i, m, READ(m)))
  {
    hide LocksOk, StatesOk, Reached;
  }

  // ---------------------------------------------------------------- a run that forgets a reader

  /** Process 0 and process 1 at one pipe. */
  function Two(p: Pc, q: Pc, st: RunState, chan: int, plock: int, lk: int, count: nat, f: Phase, g: Phase,
      killed: bool): System {
    var b := State([p, q], [st, Running], [chan, NONE], [plock, NONE],
                   [lk], [Ring(count, true, true)], [Ring(0, true, true)], [{}]);
    System(b, [f, g], [false, killed])
  }

  /** `s` can be reached by some history. */
  ghost predicate Reachable(s: System) {
    exists states, acts :: History(states, acts) && states[|acts|] == s
  }

  lemma Then(s: System, a: Act, s': System)
    requires Reachable(s) && ActsTo(s, a, s')
    ensures Reachable(s')
  {
    hide ActsTo, Start;
    var states, acts :| History(states, acts) && states[|acts|] == s;
    assert History(states + [s'], acts + [a]);
    assert (states + [s'])[|acts + [a]|] == s';
  }

  /** The reader finds the pipe empty. */
  lemma ReaderEnters()
    ensures Reachable(Two(SleepEnter(0, 0), Outside, Running, NONE, NONE, 0, 0, Reading(0, 1), Idle, false))
  {
    hide Reachable;
    var s0 := Two(Outside, Outside, Running, NONE, NONE, NONE, 0, Idle, Idle, false);
    var s1 := Two(WantLk(0), Outside, Running, NONE, NONE, NONE, 0, Reading(0, 1), Idle, false);
    var s2 := Two(In(0), Outside, Running, NONE, NONE, 0, 0, Reading(0, 1), Idle, false);
    var s3 := Two(SleepEnter(0, 0), Outside, Running, NONE, NONE, 0, 0, Reading(0, 1), Idle, false);
    StartReachable(s0);
    Then(s0, Read(0, 0, 1), s1);
    Then(s1, Continue(0, true), s2);
    Then(s2, Continue(0, true), s3);
  }

  lemma StartReachable(s: System)
    requires Start(s)
    ensures Reachable(s)
  {
    hide Start;
    assert History([s], []);
  }

  /** The reader goes to sleep. */
  lemma ReaderSleeps()
    ensures Reachable(Two(Off(0, 0), Outside, Sleeping, 0, NONE, NONE, 0, Reading(0, 1), Idle, false))
  {
    hide Reachable;
    ReaderEnters();
    var go := Continue(0, true);
    var s3 := Two(SleepEnter(0, 0), Outside, Running, NONE, NONE, 0, 0, Reading(0, 1), Idle, false);
    var s4 := Two(SleepRelease(0, 0), Outside, Running, NONE, 0, 0, 0, Reading(0, 1), Idle, false);
    var s5 := Two(SleepMark(0, 0), Outside, Running, NONE, 0, NONE, 0, Reading(0, 1), Idle, false);
    var s6 := Two(SleepSwitch(0, 0), Outside, Sleeping, 0, 0, NONE, 0, Reading(0, 1), Idle, false);
    var s7 := Two(Off(0, 0), Outside, Sleeping, 0, NONE, NONE, 0, Reading(0, 1), Idle, false);
    Then(s3, go, s4);
    Then(s4, go, s5);
    Then(s5, go, s6);
    Then(s6, go, s7);
  }

  /** A second process writes one of its two bytes. */
  lemma WriterWrites()
    ensures Reachable(Two(Off(0, 0), In(0), Sleeping, 0, NONE, 1, 1, Reading(0, 1), Writing(0, 1), false))
  {
    hide Reachable;
    ReaderSleeps();
    var s7 := Two(Off(0, 0), Outside, Sleeping, 0, NONE, NONE, 0, Reading(0, 1), Idle, false);
    var s8 := Two(Off(0, 0), WantLk(0), Sleeping, 0, NONE, NONE, 0, Reading(0, 1), Writing(0, 2), false);
    var s9 := Two(Off(0, 0), In(0), Sleeping, 0, NONE, 1, 0, Reading(0, 1), Writing(0, 2), false);
    var s10 := Two(Off(0, 0), In(0), Sleeping, 0, NONE, 1, 1, Reading(0, 1), Writing(0, 1), false);
    Then(s7, Write(1, 0, 2), s8);
    Then(s8, Continue(1, true), s9);
    Then(s9, Continue(1, true), s10);
  }

  /** It is killed and leaves. The reader sleeps on although the byte is there, the lock is free, the pipe is open at
      both ends, and no other process is in a pipe operation. */
  lemma KilledWriterForgetsReader() returns (s: System)
    ensures Reachable(s) && Forgotten(s, 0, 0) && s.b.pc[0].Off? && s.b.st[0] == Sleeping
    ensures s.phase == [Reading(0, 1), Idle] && s.b.data == [Ring(1, true, true)]
  {
    hide Reachable;
    WriterWrites();
    var s10 := Two(Off(0, 0), In(0), Sleeping, 0, NONE, 1, 1, Reading(0, 1), Writing(0, 1), false);
    var s11 := Two(Off(0, 0), In(0), Sleeping, 0, NONE, 1, 1, Reading(0, 1), Writing(0, 1), true);
    s := Two(Off(0, 0), Outside, Sleeping, 0, NONE, NONE, 1, Reading(0, 1), Idle, true);
    Then(s10, Slay(1), s11);
    Then(s11, Continue(1, true), s);
  }
}
