/** Sleep locks (kernel/sleeplock.c) as clients of sleep and wakeup: any number of locks and processes, any
    interleaving. Sleep lock `m` is the data of spin lock `m`, and its channel is `m`. */
module SleepLock {
  import opened SleepWakeup

  /** `locked` and `pid` of a sleep lock; the process itself stands for its pid. */
  datatype Mutex = Mutex(locked: bool, pid: int)

  /** What a process is doing: acquiresleep up to the test, acquiresleep after it, releasesleep up to clearing `locked`,
      before wakeup, and from wakeup on. */
  datatype Phase = Idle | Acquiring(m: nat) | Got(m: nat) | Releasing(m: nat) | Cleared(m: nat) | Woke(m: nat)

  /** `has[i]` are the sleep locks that process `i` has acquired and not released. */
  datatype System = System(b: State<Mutex>, phase: seq<Phase>, has: seq<set<nat>>)

  datatype Act = Acquire(i: nat, m: nat) | Release(i: nat, m: nat) | Continue(i: nat) | Pick(i: nat) | Slay(i: nat)

  predicate Fits(s: System) {
    Shaped(s.b) && |s.phase| == |s.has| == |s.b.pc|
  }

  /** What process `i`, inside the spin lock of sleep lock `m`, does next. */
  function Inside(d: Mutex, phase: Phase, i: nat, m: nat): Label<Mutex> {
    match phase
    case Idle => Go(i)
    case Acquiring(_) => if d.locked then Sleep(i, m) else Change(i, Mutex(true, i))
    case Got(_) => Leave(i)
    case Releasing(_) => Change(i, Mutex(false, NONE))
    case Cleared(_) => Wakeup(i, m)
    case Woke(_) => Leave(i)
  }

  function InsidePhase(d: Mutex, phase: Phase): Phase {
    match phase
    case Idle => Idle
    case Acquiring(m) => if d.locked then phase else Got(m)
    case Got(m) => Idle
    case Releasing(m) => Cleared(m)
    case Cleared(m) => Woke(m)
    case Woke(m) => Idle
  }

  function InsideHas(d: Mutex, phase: Phase, has: set<nat>): set<nat> {
    match phase
    case Acquiring(m) => if d.locked then has else has + {m}
    case Releasing(m) => has - {m}
    case _ => has
  }

  predicate AtChoice(s: System, i: nat)
    requires Fits(s)
  {
    i < |s.b.pc| && s.b.pc[i].In? && s.b.pc[i].m < |s.b.lk| && !s.phase[i].Idle?
  }

  /** The step of the underlying system that an act is. */
  function LabelOf(s: System, a: Act): Label<Mutex>
    requires Fits(s)
  {
    match a
    case Acquire(i, m) => Enter(i, m)
    case Release(i, m) => Enter(i, m)
    case Continue(i) => if AtChoice(s, i) then Inside(s.b.data[s.b.pc[i].m], s.phase[i], i, s.b.pc[i].m) else Go(i)
    case Pick(i) => Schedule(i)
    case Slay(i) => Kill(i)
  }

  predicate Possible(s: System, a: Act)
    requires Fits(s)
  {
    && Enabled(s.b, LabelOf(s, a))
    && (a.Acquire? ==> s.phase[a.i].Idle?)
    && (a.Release? ==> s.phase[a.i].Idle? && a.m in s.has[a.i])
  }

  function Act1(s: System, a: Act): (r: System)
    requires Fits(s) && Possible(s, a)
    ensures Fits(r) && |r.phase| == |s.phase|
  {
    var i := a.i;
    var b := Step(s.b, LabelOf(s, a));
    match a
    case Acquire(_, m) => s.(b := b, phase := s.phase[i := Acquiring(m)])
    case Release(_, m) => s.(b := b, phase := s.phase[i := Releasing(m)])
    case Continue(_) =>
      if AtChoice(s, i) then
        var d := s.b.data[s.b.pc[i].m];
        System(b, s.phase[i := InsidePhase(d, s.phase[i])], s.has[i := InsideHas(d, s.phase[i], s.has[i])])
      else s.(b := b)
    case _ => s.(b := b)
  }

  ghost predicate Start(s: System) {
    && Fits(s) && Initial(s.b)
    && (forall i :: 0 <= i < |s.phase| ==> s.phase[i] == Idle && s.has[i] == {})
    && (forall m :: 0 <= m < |s.b.data| ==> s.b.data[m] == Mutex(false, NONE))
  }

  ghost predicate ActsTo(s: System, a: Act, s': System) {
    Fits(s) && Possible(s, a) && s' == Act1(s, a)
  }

  ghost predicate History(states: seq<System>, acts: seq<Act>) {
    && |states| == |acts| + 1 && Start(states[0])
    && forall k :: 0 <= k < |acts| ==> ActsTo(states[k], acts[k], states[k + 1])
  }

  // ---------------------------------------------------------------- the invariant

  /** A process in acquiresleep up to its test waits for the spin lock, has it, or sleeps on the channel. */
  predicate MayAcquire(pc: Pc, m: nat) {
    && (pc.WantLk? || pc.In? || pc.Resumed? || pc.SleepEnter? || pc.SleepRelease? || pc.SleepMark? || pc.SleepSwitch?
          || pc.Off?)
    && pc.m == m && (!pc.WantLk? && !pc.In? && !pc.Resumed? ==> pc.c == m)
  }

  /** `d` is the sleep lock now, `w` what it was when its spin lock was acquired. */
  predicate PhaseOk(pc: Pc, phase: Phase, has: set<nat>, d: Mutex, w: Mutex, woken: set<nat>) {
    match phase
    case Idle => pc.Outside?
    case Acquiring(m) => MayAcquire(pc, m) && (pc.In? ==> d == w)
    case Got(m) => pc == In(m) && !w.locked
    case Releasing(m) => m in has && (pc == WantLk(m) || (pc == In(m) && d == w))
    case Cleared(m) => pc == In(m)
    case Woke(m) => ((pc.Wake? || pc.WakeLocked?) && pc.m == m && pc.c == m) || (pc == In(m) && m in woken)
  }

  ghost predicate InPlace(s: System, i: nat)
    requires Fits(s) && i < |s.phase|
  {
    !(s.phase[i].Idle? && s.b.pc[i].Outside?) ==>
      && !s.phase[i].Idle? && s.phase[i].m < |s.b.lk|
      && var m := s.phase[i].m; PhaseOk(s.b.pc[i], s.phase[i], s.has[i], s.b.data[m], s.b.was[m], s.b.woken[m])
  }

  ghost predicate PhasesOk(s: System)
    requires Fits(s)
  {
    forall i :: 0 <= i < |s.phase| ==> InPlace(s, i)
  }

  /** `locked` and `pid` say who has the lock. */
  ghost predicate MutexOk(has: seq<set<nat>>, d: Mutex, m: nat) {
    && (if d.locked then 0 <= d.pid < |has| else d.pid == NONE)
    && forall i :: 0 <= i < |has| ==> (m in has[i] <==> d.locked && d.pid == i)
  }

  ghost predicate MutexesOk(s: System) {
    forall m :: 0 <= m < |s.b.data| ==> MutexOk(s.has, s.b.data[m], m)
  }

  ghost predicate SysInv(s: System) {
    Fits(s) && Inv(s.b) && PhasesOk(s) && MutexesOk(s)
  }

  lemma StartInv(s: System)
    requires Start(s)
    ensures SysInv(s)
  {
    InitialInv(s.b);
  }

  lemma PhasesStep(s: System, a: Act)
    requires SysInv(s) && Possible(s, a)
    ensures PhasesOk(Act1(s, a))
  {
    hide Inv, MutexesOk, Act1, PhaseOk;
    var r := Act1(s, a);
    forall k | 0 <= k < |r.phase| ensures InPlace(r, k) {
      if k == a.i {
        OwnPhase(s, a);
      } else {
        OtherPhase(s, a, k);
      }
    }
  }

  lemma OtherPhase(s: System, a: Act, k: nat)
    requires SysInv(s) && Possible(s, a) && k < |s.phase| && k != a.i
    ensures InPlace(Act1(s, a), k)
  {
    hide LocksOk, StatesOk, Reached, MutexesOk, Next;
    assert InPlace(s, k);
    OtherPc(s.b, LabelOf(s, a), k);
    if HoldsLk(s.b.pc[k]) {
      OthersUntouched(s.b, LabelOf(s, a), k, s.b.pc[k].m);
    }
  }

  lemma OwnPhase(s: System, a: Act)
    requires SysInv(s) && Possible(s, a)
    ensures a.i < |s.phase| && InPlace(Act1(s, a), a.i)
  {
    hide LocksOk, StatesOk, Reached, MutexesOk, LkOk;
    assert InPlace(s, a.i);
    if a.Continue? && AtChoice(s, a.i) {
      hide InPlace, SysInv, Act1;
      ChosenPhase(s, a.i);
    } else {
      hide Inside, InsidePhase, InsideHas;
    }
  }

  lemma ChosenPhase(s: System, i: nat)
    requires SysInv(s) && AtChoice(s, i) && Possible(s, Continue(i))
    ensures InPlace(Act1(s, Continue(i)), i)
  {
    hide LocksOk, StatesOk, Reached, MutexesOk, LkOk, Next;
    assert InPlace(s, i);
  }

  lemma MutexesStep(s: System, a: Act)
    requires SysInv(s) && Possible(s, a)
    ensures MutexesOk(Act1(s, a))
  {
    hide LocksOk, StatesOk, Reached, LkOk;
    var r := Act1(s, a);
    assert InPlace(s, a.i);
    forall m | 0 <= m < |r.b.data| ensures MutexOk(r.has, r.b.data[m], m) {
      assert MutexOk(s.has, s.b.data[m], m);
    }
  }

  lemma ActInv(s: System, a: Act)
    requires SysInv(s) && Possible(s, a)
    ensures SysInv(Act1(s, a))
  {
    hide Inv, PhasesOk, MutexesOk, Step, LabelOf;
    StepInv(s.b, LabelOf(s, a));
    PhasesStep(s, a);
    MutexesStep(s, a);
  }

  lemma {:induction false} HistoryInv(states: seq<System>, acts: seq<Act>, k: nat)
    requires History(states, acts) && k < |states|
    ensures SysInv(states[k])
  {
    hide SysInv, Act1;
    if k == 0 {
      StartInv(states[0]);
    } else {
      HistoryInv(states, acts, k - 1);
      assert ActsTo(states[k - 1], acts[k - 1], states[k]);
      ActInv(states[k - 1], acts[k - 1]);
    }
  }

  // ---------------------------------------------------------------- sleep locks obey the discipline

  /** A process has to wait for sleep lock `m` while it is locked. */
  function LockedOut(m: nat, c: nat, d: Mutex): bool {
    c == m && d.locked
  }

  lemma ActObeys(s: System, a: Act)
    requires SysInv(s) && Possible(s, a)
    ensures Obeys(LockedOut, s.b, LabelOf(s, a))
  {
    hide LocksOk, StatesOk, Reached, MutexesOk, LkOk;
    assert InPlace(s, a.i);
  }

  function Bases(states: seq<System>): (r: seq<State<Mutex>>)
    ensures |r| == |states| && forall k :: 0 <= k < |r| ==> r[k] == states[k].b
  {
    seq(|states|, k requires 0 <= k < |states| => states[k].b)
  }

  ghost function Labels(states: seq<System>, acts: seq<Act>): (r: seq<Label<Mutex>>)
    requires History(states, acts)
    ensures |r| == |acts| && forall k ::
              0 <= k < |r| ==> ActsTo(states[k], acts[k], states[k + 1]) && r[k] == LabelOf(states[k], acts[k])
  {
    assert forall k :: 0 <= k < |acts| ==> ActsTo(states[k], acts[k], states[k + 1]);
    seq(|acts|, k requires 0 <= k < |acts| && ActsTo(states[k], acts[k], states[k + 1]) => LabelOf(states[k], acts[k]))
  }

  /** Every history of sleep locks is a run of sleep and wakeup in which everybody obeys the discipline. */
  lemma HistoryIsMonitored(states: seq<System>, acts: seq<Act>)
    requires History(states, acts)
    ensures Monitored(LockedOut, Bases(states), Labels(states, acts))
  {
    hide SysInv, Obeys, Step, Enabled, LabelOf;
    var bs, ls := Bases(states), Labels(states, acts);
    forall k | 0 <= k < |acts| ensures StepsTo(bs[k], ls[k], bs[k + 1]) && Obeys(LockedOut, bs[k], ls[k]) {
      HistoryInv(states, acts, k);
      assert ActsTo(states[k], acts[k], states[k + 1]);
      ActObeys(states[k], acts[k]);
    }
  }

  // ---------------------------------------------------------------- theorems

  /** At most one process has a sleep lock, and the lock is taken exactly when one has it. */
  lemma MutualExclusion(states: seq<System>, acts: seq<Act>, k: nat, m: nat)
    requires History(states, acts) && k < |states| && m < |states[k].b.data|
    ensures
      var s := states[k];
      && (forall i, j :: 0 <= i < |s.has| && 0 <= j < |s.has| && m in s.has[i] && m in s.has[j] ==> i == j)
      && (s.b.data[m].locked <==> exists i :: 0 <= i < |s.has| && m in s.has[i])
  {
    HistoryInv(states, acts, k);
    assert MutexOk(states[k].has, states[k].b.data[m], m);
    assert states[k].b.data[m].locked ==> m in states[k].has[states[k].b.data[m].pid];
  }

  /** No process stays asleep on a free sleep lock: when its spin lock is free and the sleep lock is not taken, no
      process sleeps on it or is about to. */
  lemma FreeLockHasNoSleepers(states: seq<System>, acts: seq<Act>, k: nat, m: nat, i: nat)
    requires History(states, acts) && k < |states| && m < |states[k].b.lk| && states[k].b.lk[m] == NONE
    requires m < |states[k].b.data| && !states[k].b.data[m].locked
    ensures !Committed(states[k].b, i, m, m)
  {
    HistoryIsMonitored(states, acts);
    if Committed(states[k].b, i, m, m) {
      NoLostWakeup(LockedOut, Bases(states), Labels(states, acts), k, i, m, m);
    }
  }

  /** Process `w` is in releasesleep, has cleared `locked`, holds the spin lock and has yet to come to process `i`. */
  ghost predicate WillWake(s: System, w: nat, m: nat, i: nat) {
    && w < |s.b.pc| && w < |s.phase| && m < |s.b.lk| && m < |s.b.woken| && s.b.lk[m] == w && w != i
    && (s.phase[w] == Cleared(m) || s.phase[w] == Woke(m)) && Ahead(s.b.pc[w], s.b.woken[m], m, i)
  }

  /** Whoever sleeps on a sleep lock has somebody to wake them: the process that has the sleep lock, or one that is
      releasing it. */
  lemma SleeperHasWaker(states: seq<System>, acts: seq<Act>, k: nat, m: nat, i: nat)
    requires History(states, acts) && k < |states| && Committed(states[k].b, i, m, m)
    ensures exists w :: (0 <= w < |states[k].has| && m in states[k].has[w]) || (0 <= w && WillWake(states[k], w, m, i))
  {
    HistoryInv(states, acts, k);
    HistoryIsMonitored(states, acts);
    MonitorInv(LockedOut, Bases(states), Labels(states, acts), k);
    var w := WakerOf(states[k], m, i);
  }

  lemma WakerOf(s: System, m: nat, i: nat) returns (w: nat)
    requires SysInv(s) && Committed(s.b, i, m, m) && Waiting(LockedOut, s.b)
    ensures (w < |s.has| && m in s.has[w]) || WillWake(s, w, m, i)
  {
    assert WaitsFor(LockedOut, s.b, i) && ReachedAt(s.b.pc, s.b.lk, s.b.woken, i);
    assert MutexOk(s.has, s.b.data[m], m);
    if s.b.data[m].locked {
      w := s.b.data[m].pid;
    } else {
      w := s.b.lk[m];
      Releaser(s, m, w);
    }
  }

  /** Who holds the spin lock of a sleep lock that was taken and is not any more. */
  lemma Releaser(s: System, m: nat, w: nat)
    requires SysInv(s) && Waiting(LockedOut, s.b) && m < |s.b.lk| && s.b.lk[m] == w && s.b.was[m].locked
    requires !s.b.data[m].locked
    ensures s.phase[w] == Cleared(m) || s.phase[w] == Woke(m)
  {
    hide LocksOk, StatesOk, Reached, MutexesOk;
    assert HoldsLk(s.b.pc[w]) && s.b.pc[w].m == m && InPlace(s, w);
  }
}
