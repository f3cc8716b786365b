/** sleep and wakeup (kernel/proc.c) at the grain of single spin-lock operations, for any number of processes, locks
    and channels and any interleaving. What a process does between acquire and release is its own choice: it may change
    the data that the lock protects, sleep on any channel, wake any channel, and leave. */
module SleepWakeup {
  /** Where a process is. `m` is the lock `lk` that it uses, `c` the channel. */
  datatype Pc =
    | Outside
    | WantLk(m: nat)                          // about to acquire lk, first or at the end of sleep
    | In(m: nat)                              // holds lk
    | SleepEnter(m: nat, c: nat)              // holds lk; in sleep, about to acquire its own p->lock
    | SleepRelease(m: nat, c: nat)            // holds lk and p->lock; about to release lk
    | SleepMark(m: nat, c: nat)               // holds p->lock; about to set chan and SLEEPING
    | SleepSwitch(m: nat, c: nat)             // holds p->lock; about to switch to the scheduler, which releases it
    | Off(m: nat, c: nat)                     // not on a CPU
    | Resumed(m: nat)                         // scheduled again, holds p->lock; about to clear chan and release it
    | Wake(m: nat, c: nat, j: nat)            // holds lk; in wakeup, about to look at process j
    | WakeLocked(m: nat, c: nat, j: nat)      // holds lk and the lock of process j

  datatype RunState = Sleeping | Runnable | Running

  /** No process, or no channel. */
  const NONE := -1

  /** `plock[i]` and `lk[m]` are the holders of the spin locks and `data[m]` is what lock `m` protects. `was[m]` is that
      data when the lock was last acquired, and `woken[m]` are the channels that its holder has woken since. */
  datatype State<D> = State(
    pc: seq<Pc>, st: seq<RunState>, chan: seq<int>, plock: seq<int>,
    lk: seq<int>, data: seq<D>, was: seq<D>, woken: seq<set<nat>>)

  /** What a process chooses to do, its next step in acquire, sleep or wakeup, the scheduler, or kill. A wakeup by code
      that does not hold the lock is a `Kill` here: it wakes one process, and the theorems do not rely on it. */
  datatype Label<D> =
    | Enter(i: nat, m: nat)
    | Change(i: nat, d: D)
    | Sleep(i: nat, c: nat)
    | Wakeup(i: nat, c: nat)
    | Leave(i: nat)
    | Go(i: nat)
    | Schedule(i: nat)
    | Kill(i: nat)

  predicate Shaped<D>(s: State<D>) {
    && |s.st| == |s.chan| == |s.plock| == |s.pc|
    && |s.data| == |s.was| == |s.woken| == |s.lk|
  }

  predicate HoldsLk(pc: Pc) {
    pc.In? || pc.SleepEnter? || pc.SleepRelease? || pc.Wake? || pc.WakeLocked?
  }

  predicate HoldsOwn(pc: Pc) {
    pc.SleepRelease? || pc.SleepMark? || pc.SleepSwitch? || pc.Resumed?
  }

  function Move<D>(s: State<D>, i: nat, pc: Pc): State<D>
    requires i < |s.pc|
  {
    s.(pc := s.pc[i := pc])
  }

  /** The state that wakeup leaves process `j` in. */
  function Woken(st: seq<RunState>, chan: seq<int>, c: nat, j: nat): (r: seq<RunState>)
    requires j < |st| == |chan|
    ensures |r| == |st|
  {
    if st[j] == Sleeping && chan[j] == c then st[j := Runnable] else st
  }

  /** The next step of process `i` in acquire, sleep or wakeup; none if it waits for a lock or for the scheduler. */
  function Next<D>(s: State<D>, i: nat): (r: State<D>)
    requires Shaped(s) && i < |s.pc|
    ensures Shaped(r) && |r.pc| == |s.pc| && |r.lk| == |s.lk| && r.data == s.data
  {
    match s.pc[i]
    case Outside => s
    case WantLk(m) =>
      if m < |s.lk| && s.lk[m] == NONE then
        Move(s, i, In(m)).(lk := s.lk[m := i], was := s.was[m := s.data[m]], woken := s.woken[m := {}])
      else s
    case In(m) => s
    case SleepEnter(m, c) =>
      if s.plock[i] == NONE then Move(s, i, SleepRelease(m, c)).(plock := s.plock[i := i]) else s
    case SleepRelease(m, c) => if m < |s.lk| then Move(s, i, SleepMark(m, c)).(lk := s.lk[m := NONE]) else s
    case SleepMark(m, c) => Move(s, i, SleepSwitch(m, c)).(st := s.st[i := Sleeping], chan := s.chan[i := c])
    case SleepSwitch(m, c) => Move(s, i, Off(m, c)).(plock := s.plock[i := NONE])
    case Off(m, c) => s
    case Resumed(m) => Move(s, i, WantLk(m)).(chan := s.chan[i := NONE], plock := s.plock[i := NONE])
    case Wake(m, c, j) =>
      if j >= |s.pc| then
        if m < |s.lk| then Move(s, i, In(m)).(woken := s.woken[m := s.woken[m] + {c}]) else s
      else if j == i then Move(s, i, Wake(m, c, j + 1))
      else if s.plock[j] == NONE then Move(s, i, WakeLocked(m, c, j)).(plock := s.plock[j := i])
      else s
    case WakeLocked(m, c, j) =>
      if j >= |s.pc| then s
      else Move(s, i, Wake(m, c, j + 1)).(plock := s.plock[j := NONE], st := Woken(s.st, s.chan, c, j))
  }

  predicate Enabled<D>(s: State<D>, l: Label<D>)
    requires Shaped(s)
  {
    match l
    case Enter(i, m) => i < |s.pc| && m < |s.lk| && s.pc[i].Outside?
    case Change(i, d) => i < |s.pc| && s.pc[i].In? && s.pc[i].m < |s.lk|
    case Sleep(i, c) => i < |s.pc| && s.pc[i].In? && s.pc[i].m < |s.lk|
    case Wakeup(i, c) => i < |s.pc| && s.pc[i].In? && s.pc[i].m < |s.lk|
    case Leave(i) => i < |s.pc| && s.pc[i].In? && s.pc[i].m < |s.lk|
    case Go(i) => i < |s.pc|
    case Schedule(i) => i < |s.pc| && s.pc[i].Off? && s.st[i] == Runnable && s.plock[i] == NONE
    case Kill(i) => i < |s.pc| && s.plock[i] == NONE
  }

  function Step<D>(s: State<D>, l: Label<D>): (r: State<D>)
    requires Shaped(s) && Enabled(s, l)
    ensures Shaped(r) && |r.pc| == |s.pc| && |r.lk| == |s.lk|
  {
    match l
    case Enter(i, m) => Move(s, i, WantLk(m))
    case Change(i, d) => s.(data := s.data[s.pc[i].m := d])
    case Sleep(i, c) => Move(s, i, SleepEnter(s.pc[i].m, c))
    case Wakeup(i, c) => Move(s, i, Wake(s.pc[i].m, c, 0))
    case Leave(i) => Move(s, i, Outside).(lk := s.lk[s.pc[i].m := NONE])
    case Go(i) => Next(s, i)
    case Schedule(i) => Move(s, i, Resumed(s.pc[i].m)).(st := s.st[i := Running], plock := s.plock[i := i])
    case Kill(i) => s.(st := if s.st[i] == Sleeping then s.st[i := Runnable] else s.st)
  }

  ghost predicate Initial<D>(s: State<D>) {
    && Shaped(s) && (forall m :: 0 <= m < |s.lk| ==> s.lk[m] == NONE)
    && forall i ::
          0 <= i < |s.pc| ==> s.pc[i] == Outside && s.st[i] == Running && s.chan[i] == NONE && s.plock[i] == NONE
  }

  ghost predicate StepsTo<D>(s: State<D>, l: Label<D>, s': State<D>) {
    Shaped(s) && Enabled(s, l) && s' == Step(s, l)
  }

  ghost predicate Run<D>(states: seq<State<D>>, labels: seq<Label<D>>) {
    && |states| == |labels| + 1 && Initial(states[0])
    && (forall k :: 0 <= k < |labels| ==> StepsTo(states[k], labels[k], states[k + 1]))
  }

  // ---------------------------------------------------------------- the invariant

  ghost predicate LkOk(pc: seq<Pc>, lk: seq<int>) {
    && (forall m :: 0 <= m < |lk| ==> NONE <= lk[m] < |pc|)
    && (forall m :: 0 <= m < |lk| && lk[m] != NONE ==> HoldsLk(pc[lk[m]]) && pc[lk[m]].m == m)
    && (forall i :: 0 <= i < |pc| && HoldsLk(pc[i]) ==> pc[i].m < |lk| && lk[pc[i].m] == i)
  }

  ghost predicate LocksOk(pc: seq<Pc>, plock: seq<int>) {
    && |plock| == |pc|
    && (forall k :: 0 <= k < |pc| ==> NONE <= plock[k] < |pc|)
    && (forall k :: 0 <= k < |pc| && HoldsOwn(pc[k]) ==> plock[k] == k)
    && (forall i :: 0 <= i < |pc| && pc[i].WakeLocked? ==> pc[i].j < |pc| && pc[i].j != i && plock[pc[i].j] == i)
    && (forall k :: 0 <= k < |pc| && plock[k] != NONE ==>
          if plock[k] == k then HoldsOwn(pc[k]) else pc[plock[k]].WakeLocked? && pc[plock[k]].j == k)
  }

  /** State and channel of a process at `pc`. */
  predicate PlaceOk(pc: Pc, st: RunState, chan: int) {
    match pc
    case SleepSwitch(m, c) => st == Sleeping && chan == c
    case Off(m, c) => st != Running && chan == c
    case Resumed(m) => st == Running
    case _ => st == Running && chan == NONE
  }

  ghost predicate StatesOk(pc: seq<Pc>, st: seq<RunState>, chan: seq<int>) {
    && |st| == |chan| == |pc|
    && forall i {:trigger pc[i]} :: 0 <= i < |pc| ==> PlaceOk(pc[i], st[i], chan[i])
  }

  /** The process has called sleep and has not been woken since. */
  predicate Asleep(pc: Pc, st: RunState) {
    pc.SleepEnter? || pc.SleepRelease? || pc.SleepMark? || pc.SleepSwitch? || (pc.Off? && st == Sleeping)
  }

  /** Process `i` has called sleep(c, m) and has not been woken since. */
  predicate Committed<D>(s: State<D>, i: nat, m: nat, c: nat) {
    i < |s.pc| && i < |s.st| && Asleep(s.pc[i], s.st[i]) && s.pc[i].m == m && s.pc[i].c == c
  }

  /** A holder of a lock at `pc` that has woken the channels `woken` has yet to reach process `k` on channel `c`. */
  predicate Ahead(pc: Pc, woken: set<nat>, c: nat, k: nat) {
    c !in woken && ((pc.Wake? || pc.WakeLocked?) && pc.c == c ==> pc.j <= k)
  }

  /** Whoever is committed uses a free lock, has it, or is still ahead of its holder. */
  ghost predicate Reached(pc: seq<Pc>, st: seq<RunState>, lk: seq<int>, woken: seq<set<nat>>) {
    && |st| == |pc| && |woken| == |lk|
    && forall k :: 0 <= k < |pc| && Asleep(pc[k], st[k]) ==> ReachedAt(pc, lk, woken, k)
  }

  predicate ReachedAt(pc: seq<Pc>, lk: seq<int>, woken: seq<set<nat>>, k: nat)
    requires k < |pc| && (HoldsLk(pc[k]) || pc[k].SleepMark? || pc[k].SleepSwitch? || pc[k].Off?) && |woken| == |lk|
    requires !pc[k].In?
  {
    var m := pc[k].m;
    m < |lk| && (lk[m] == NONE || lk[m] == k || (0 <= lk[m] < |pc| && Ahead(pc[lk[m]], woken[m], pc[k].c, k)))
  }

  ghost predicate Inv<D>(s: State<D>) {
    && Shaped(s) && LkOk(s.pc, s.lk) && LocksOk(s.pc, s.plock) && StatesOk(s.pc, s.st, s.chan)
    && Reached(s.pc, s.st, s.lk, s.woken)
  }

  lemma InitialInv<D>(s: State<D>)
    requires Initial(s)
    ensures Inv(s)
  {
  }

  // Locks that processes share: a step keeps what it holds, takes a free lock or drops its lock.

  lemma LkSame(pc: seq<Pc>, lk: seq<int>, i: nat, q: Pc)
    requires LkOk(pc, lk) && i < |pc| && HoldsLk(pc[i]) == HoldsLk(q) && (HoldsLk(q) ==> q.m == pc[i].m)
    ensures LkOk(pc[i := q], lk)
  {
  }

  lemma LkTake(pc: seq<Pc>, lk: seq<int>, i: nat, m: nat)
    requires LkOk(pc, lk) && i < |pc| && m < |lk| && lk[m] == NONE && pc[i] == WantLk(m)
    ensures LkOk(pc[i := In(m)], lk[m := i])
  {
  }

  lemma LkDrop(pc: seq<Pc>, lk: seq<int>, i: nat, q: Pc)
    requires LkOk(pc, lk) && i < |pc| && HoldsLk(pc[i]) && !HoldsLk(q)
    ensures pc[i].m < |lk| && LkOk(pc[i := q], lk[pc[i].m := NONE])
  {
  }

  lemma LkStep<D>(s: State<D>, l: Label<D>)
    requires Shaped(s) && Enabled(s, l) && LkOk(s.pc, s.lk)
    ensures LkOk(Step(s, l).pc, Step(s, l).lk)
  {
    hide LkOk;
    var i := l.i;
    var q := Step(s, l).pc[i];
    match l
    case Leave(_) => LkDrop(s.pc, s.lk, i, Outside);
    case Go(_) =>
      match s.pc[i] {
        case WantLk(m) => if m < |s.lk| && s.lk[m] == NONE { LkTake(s.pc, s.lk, i, m); }
            else { LkSame(s.pc, s.lk, i, q); }
        case SleepRelease(m, c) => LkDrop(s.pc, s.lk, i, SleepMark(m, c));
        case _ => LkSame(s.pc, s.lk, i, q);
      }
    case _ => LkSame(s.pc, s.lk, i, q);
  }

  // Locks of processes: a step takes or drops the process's own lock, takes or drops another's, or neither.

  predicate Plain(pc: Pc) {
    !HoldsOwn(pc) && !pc.WakeLocked?
  }

  lemma LocksSame(pc: seq<Pc>, plock: seq<int>, i: nat, q: Pc)
    requires LocksOk(pc, plock) && i < |pc| && HoldsOwn(pc[i]) == HoldsOwn(q)
    requires (!pc[i].WakeLocked? && !q.WakeLocked?) || q == pc[i]
    ensures LocksOk(pc[i := q], plock)
  {
  }

  lemma LocksOwn(pc: seq<Pc>, plock: seq<int>, i: nat, q: Pc)
    requires LocksOk(pc, plock) && i < |pc| && Plain(pc[i]) && HoldsOwn(q) && plock[i] == NONE
    ensures LocksOk(pc[i := q], plock[i := i])
  {
  }

  lemma LocksDisown(pc: seq<Pc>, plock: seq<int>, i: nat, q: Pc)
    requires LocksOk(pc, plock) && i < |pc| && HoldsOwn(pc[i]) && Plain(q)
    ensures LocksOk(pc[i := q], plock[i := NONE])
  {
  }

  lemma LocksTake(pc: seq<Pc>, plock: seq<int>, i: nat, j: nat, q: Pc)
    requires LocksOk(pc, plock) && i < |pc| && j < |pc| && i != j && Plain(pc[i]) && plock[j] == NONE
    requires q.WakeLocked? && q.j == j
    ensures LocksOk(pc[i := q], plock[j := i])
  {
  }

  lemma LocksDrop(pc: seq<Pc>, plock: seq<int>, i: nat, q: Pc)
    requires LocksOk(pc, plock) && i < |pc| && pc[i].WakeLocked? && Plain(q)
    ensures pc[i].j < |pc| && LocksOk(pc[i := q], plock[pc[i].j := NONE])
  {
  }

  lemma LocksStep<D>(s: State<D>, l: Label<D>)
    requires Shaped(s) && Enabled(s, l) && LocksOk(s.pc, s.plock)
    ensures LocksOk(Step(s, l).pc, Step(s, l).plock)
  {
    hide LocksOk;
    var i := l.i;
    var q := Step(s, l).pc[i];
    match l
    case Schedule(_) => LocksOwn(s.pc, s.plock, i, q);
    case Go(_) =>
      match s.pc[i] {
        case SleepEnter(m, c) => if s.plock[i] == NONE { LocksOwn(s.pc, s.plock, i, q); }
            else { LocksSame(s.pc, s.plock, i, q); }
        case SleepSwitch(m, c) => LocksDisown(s.pc, s.plock, i, q);
        case Resumed(m) => LocksDisown(s.pc, s.plock, i, q);
        case Wake(m, c, j) =>
          if j < |s.pc| && j != i && s.plock[j] == NONE { LocksTake(s.pc, s.plock, i, j, q); }
              else { LocksSame(s.pc, s.plock, i, q); }
        case WakeLocked(m, c, j) => LocksDrop(s.pc, s.plock, i, Wake(m, c, j + 1));
        case _ => LocksSame(s.pc, s.plock, i, q);
      }
    case _ => LocksSame(s.pc, s.plock, i, q);
  }

  // Process states: the process looked at holds none of its own lock, so it is really off.

  lemma LockedIsOff(pc: seq<Pc>, plock: seq<int>, i: nat)
    requires LocksOk(pc, plock) && i < |pc| && pc[i].WakeLocked?
    ensures pc[i].j < |pc| && pc[i].j != i && !HoldsOwn(pc[pc[i].j])
  {
  }

  lemma FreeIsOff(pc: seq<Pc>, plock: seq<int>, i: nat)
    requires LocksOk(pc, plock) && i < |pc| && plock[i] == NONE
    ensures !HoldsOwn(pc[i])
  {
  }

  lemma StatesStep<D>(s: State<D>, l: Label<D>)
    requires Shaped(s) && Enabled(s, l) && LocksOk(s.pc, s.plock) && StatesOk(s.pc, s.st, s.chan)
    ensures var r := Step(s, l); StatesOk(r.pc, r.st, r.chan)
  {
    hide LocksOk;
    var r := Step(s, l);
    assert PlaceOk(s.pc[l.i], s.st[l.i], s.chan[l.i]);
    if l.Kill? {
      FreeIsOff(s.pc, s.plock, l.i);
    }
    if l.Go? && s.pc[l.i].WakeLocked? {
      LockedIsOff(s.pc, s.plock, l.i);
    }
  }

  // Nobody commits to a channel of a lock that another process holds, and wakeup leaves nobody committed.

  /** Process `i` holds no lock that the others wait for, or looks at nobody. */
  lemma ReachedSame(pc: seq<Pc>, st: seq<RunState>, lk: seq<int>, woken: seq<set<nat>>, i: nat, q: Pc)
    requires Reached(pc, st, lk, woken) && LkOk(pc, lk) && i < |pc|
    requires HoldsLk(pc[i]) == HoldsLk(q) && (HoldsLk(q) ==> q.m == pc[i].m)
    requires Asleep(q, st[i]) ==> HoldsLk(q) || (Asleep(pc[i], st[i]) && q.m == pc[i].m && q.c == pc[i].c)
    requires q.Wake? || q.WakeLocked? ==>
              q.j == 0 || ((pc[i].Wake? || pc[i].WakeLocked?) && q.c == pc[i].c && q.j == pc[i].j)
    ensures Reached(pc[i := q], st, lk, woken)
  {
    var pc' := pc[i := q];
    forall k | 0 <= k < |pc| && Asleep(pc'[k], st[k]) ensures ReachedAt(pc', lk, woken, k) {
      assert Asleep(pc[k], st[k]) ==> ReachedAt(pc, lk, woken, k);
    }
  }

  lemma ReachedTake(pc: seq<Pc>, st: seq<RunState>, lk: seq<int>, woken: seq<set<nat>>, i: nat, m: nat)
    requires Reached(pc, st, lk, woken) && i < |pc| && m < |lk| && pc[i] == WantLk(m) && LkOk(pc, lk)
    ensures Reached(pc[i := In(m)], st, lk[m := i], woken[m := {}])
  {
    var pc', lk', woken' := pc[i := In(m)], lk[m := i], woken[m := {}];
    forall k | 0 <= k < |pc| && Asleep(pc'[k], st[k]) ensures ReachedAt(pc', lk', woken', k) {
      assert Asleep(pc[k], st[k]) && ReachedAt(pc, lk, woken, k);
    }
  }

  lemma ReachedDrop(pc: seq<Pc>, st: seq<RunState>, lk: seq<int>, woken: seq<set<nat>>, i: nat, q: Pc)
    requires Reached(pc, st, lk, woken) && LkOk(pc, lk) && i < |pc| && HoldsLk(pc[i]) && !HoldsLk(q)
    requires Asleep(q, st[i]) ==> q.m == pc[i].m && q.SleepMark?
    ensures pc[i].m < |lk| && Reached(pc[i := q], st, lk[pc[i].m := NONE], woken)
  {
    var m := pc[i].m;
    var pc', lk' := pc[i := q], lk[m := NONE];
    forall k | 0 <= k < |pc| && Asleep(pc'[k], st[k]) ensures ReachedAt(pc', lk', woken, k) {
      assert k != i ==> Asleep(pc[k], st[k]) && ReachedAt(pc, lk, woken, k);
    }
  }

  /** A process is marked, woken, killed or scheduled: who was not committed is not committed now. */
  lemma ReachedStates(pc: seq<Pc>, st: seq<RunState>, lk: seq<int>, woken: seq<set<nat>>, i: nat, q: Pc, r: RunState)
    requires Reached(pc, st, lk, woken) && LkOk(pc, lk) && i < |pc| && !HoldsLk(pc[i]) && !HoldsLk(q)
    requires Asleep(q, r) ==> Asleep(pc[i], st[i]) && q.m == pc[i].m && q.c == pc[i].c
    ensures Reached(pc[i := q], st[i := r], lk, woken)
  {
    var pc', st' := pc[i := q], st[i := r];
    forall k | 0 <= k < |pc| && Asleep(pc'[k], st'[k]) ensures ReachedAt(pc', lk, woken, k) {
      assert Asleep(pc[k], st[k]) && ReachedAt(pc, lk, woken, k);
    }
  }

  /** One turn of the loop of wakeup over another process. */
  lemma ReachedWoken(pc: seq<Pc>, st: seq<RunState>, chan: seq<int>, plock: seq<int>, lk: seq<int>,
      woken: seq<set<nat>>, i: nat)
    requires Reached(pc, st, lk, woken) && LkOk(pc, lk) && LocksOk(pc, plock) && StatesOk(pc, st, chan)
    requires i < |pc| && pc[i].WakeLocked?
    ensures pc[i].j < |pc|
    ensures Reached(pc[i := Wake(pc[i].m, pc[i].c, pc[i].j + 1)], Woken(st, chan, pc[i].c, pc[i].j), lk, woken)
  {
    hide LocksOk;
    LockedIsOff(pc, plock, i);
    var m, c, j := pc[i].m, pc[i].c, pc[i].j;
    var pc', st' := pc[i := Wake(m, c, j + 1)], Woken(st, chan, c, j);
    forall k | 0 <= k < |pc| && Asleep(pc'[k], st'[k]) ensures ReachedAt(pc', lk, woken, k) {
      assert Asleep(pc[k], st[k]) && ReachedAt(pc, lk, woken, k);
      assert PlaceOk(pc[j], st[j], chan[j]);
      assert HoldsLk(pc[j]) ==> lk[pc[j].m] == j;
    }
  }

  /** The loop of wakeup goes on, or is over. */
  lemma ReachedWake(pc: seq<Pc>, st: seq<RunState>, lk: seq<int>, woken: seq<set<nat>>, i: nat)
    requires Reached(pc, st, lk, woken) && LkOk(pc, lk) && i < |pc| && pc[i].Wake?
    ensures pc[i].j == i ==> Reached(pc[i := Wake(pc[i].m, pc[i].c, i + 1)], st, lk, woken)
    ensures pc[i].m < |lk|
    ensures pc[i].j >= |pc| ==> Reached(pc[i := In(pc[i].m)], st, lk, woken[pc[i].m := woken[pc[i].m] + {pc[i].c}])
  {
    var m, c := pc[i].m, pc[i].c;
    assert HoldsLk(pc[i]);
    forall k | 0 <= k < |pc| && Asleep(pc[k], st[k])
      ensures pc[i].j == i ==> ReachedAt(pc[i := Wake(m, c, i + 1)], lk, woken, k)
      ensures pc[i].j >= |pc| ==> ReachedAt(pc[i := In(m)], lk, woken[m := woken[m] + {c}], k)
    {
      assert ReachedAt(pc, lk, woken, k);
    }
  }

  lemma ReachedStep<D>(s: State<D>, l: Label<D>)
    requires Inv(s) && Enabled(s, l)
    ensures var r := Step(s, l); Reached(r.pc, r.st, r.lk, r.woken)
  {
    hide Reached, LkOk, LocksOk, StatesOk;
    var i := l.i;
    var q := Step(s, l).pc[i];
    match l
    case Change(_, d) =>
    case Leave(_) => ReachedDrop(s.pc, s.st, s.lk, s.woken, i, Outside);
    case Kill(_) => KillReached(s, i);
    case Schedule(_) => ReachedStates(s.pc, s.st, s.lk, s.woken, i, q, Running);
    case Go(_) => GoReached(s, i);
    case _ => ReachedSame(s.pc, s.st, s.lk, s.woken, i, q);
  }

  lemma KillReached<D>(s: State<D>, i: nat)
    requires Inv(s) && i < |s.pc| && s.plock[i] == NONE
    ensures s.st[i] == Sleeping ==> Reached(s.pc, s.st[i := Runnable], s.lk, s.woken)
  {
    if s.st[i] == Sleeping {
      hide Reached, LkOk, LocksOk;
      assert PlaceOk(s.pc[i], s.st[i], s.chan[i]);
      FreeIsOff(s.pc, s.plock, i);
      ReachedStates(s.pc, s.st, s.lk, s.woken, i, s.pc[i], Runnable);
      assert s.pc[i := s.pc[i]] == s.pc;
    }
  }

  lemma GoReached<D>(s: State<D>, i: nat)
    requires Inv(s) && i < |s.pc|
    ensures var r := Next(s, i); Reached(r.pc, r.st, r.lk, r.woken)
  {
    hide Reached, LkOk, LocksOk, StatesOk;
    var q := Next(s, i).pc[i];
    match s.pc[i]
    case WantLk(m) => if m < |s.lk| && s.lk[m] == NONE { ReachedTake(s.pc, s.st, s.lk, s.woken, i, m); }
    case SleepEnter(m, c) => ReachedSame(s.pc, s.st, s.lk, s.woken, i, q);
    case SleepRelease(m, c) => ReachedDrop(s.pc, s.st, s.lk, s.woken, i, SleepMark(m, c));
    case SleepMark(m, c) => ReachedStates(s.pc, s.st, s.lk, s.woken, i, q, Sleeping);
    case SleepSwitch(m, c) =>
      SwitchSleeps(s.pc, s.st, s.chan, i);
      ReachedSame(s.pc, s.st, s.lk, s.woken, i, q);
    case Resumed(m) => ReachedSame(s.pc, s.st, s.lk, s.woken, i, q);
    case Wake(m, c, j) =>
      ReachedWake(s.pc, s.st, s.lk, s.woken, i);
      ReachedSame(s.pc, s.st, s.lk, s.woken, i, WakeLocked(m, c, j));
    case WakeLocked(m, c, j) => ReachedWoken(s.pc, s.st, s.chan, s.plock, s.lk, s.woken, i);
    case _ =>
  }

  lemma SwitchSleeps(pc: seq<Pc>, st: seq<RunState>, chan: seq<int>, i: nat)
    requires StatesOk(pc, st, chan) && i < |pc| && pc[i].SleepSwitch?
    ensures st[i] == Sleeping
  {
    assert PlaceOk(pc[i], st[i], chan[i]);
  }

  lemma StepInv<D>(s: State<D>, l: Label<D>)
    requires Shaped(s) && Enabled(s, l) && Inv(s)
    ensures Inv(Step(s, l))
  {
    hide Step, Enabled, LkOk, LocksOk, StatesOk, Reached;
    LkStep(s, l);
    LocksStep(s, l);
    StatesStep(s, l);
    ReachedStep(s, l);
  }

  lemma {:induction false} RunInv<D>(states: seq<State<D>>, labels: seq<Label<D>>, k: nat)
    requires Run(states, labels) && k < |states|
    ensures Inv(states[k])
  {
    hide Inv, Step;
    if k == 0 {
      InitialInv(states[0]);
    } else {
      RunInv(states, labels, k - 1);
      assert StepsTo(states[k - 1], labels[k - 1], states[k]);
      StepInv(states[k - 1], labels[k - 1]);
    }
  }

  // ---------------------------------------------------------------- what a step leaves alone

  /** A step of process `i` leaves the lock data of every lock that another process is inside as it was. */
  lemma OthersUntouched<D>(s: State<D>, l: Label<D>, k: nat, m: nat)
    requires Shaped(s) && Enabled(s, l) && LkOk(s.pc, s.lk) && k < |s.pc| && k != l.i && m < |s.lk| && HoldsLk(s.pc[k])
    requires s.pc[k].m == m
    ensures var r := Step(s, l);
              r.pc[k] == s.pc[k] && r.data[m] == s.data[m] && r.was[m] == s.was[m] && r.woken[m] == s.woken[m]
  {
    assert s.lk[m] == k;
    assert HoldsLk(s.pc[l.i]) ==> s.lk[s.pc[l.i].m] == l.i;
  }

  lemma OtherPc<D>(s: State<D>, l: Label<D>, k: nat)
    requires Shaped(s) && Enabled(s, l) && k < |s.pc| && k != l.i
    ensures Step(s, l).pc[k] == s.pc[k]
  {
  }

  // ---------------------------------------------------------------- no wakeup is lost

  /** Process `w` is in wakeup(c) under lock `m`, or through with it, in the same critical section. */
  ghost predicate Waking<D>(s: State<D>, w: nat, m: nat, c: nat) {
    && Shaped(s) && w < |s.pc| && m < |s.lk| && s.lk[m] == w && HoldsLk(s.pc[w]) && s.pc[w].m == m
    && (c in s.woken[m] || ((s.pc[w].Wake? || s.pc[w].WakeLocked?) && s.pc[w].c == c))
  }

  lemma WakingStep<D>(s: State<D>, l: Label<D>, w: nat, m: nat, c: nat)
    requires Inv(s) && Enabled(s, l) && Waking(s, w, m, c) && Step(s, l).lk[m] == w
    ensures Waking(Step(s, l), w, m, c)
  {
    hide LocksOk, StatesOk, Reached;
    LkStep(s, l);
  }

  lemma {:induction false} WakingOn<D>(states: seq<State<D>>, labels: seq<Label<D>>, a: nat, b: nat, w: nat, m: nat,
      c: nat)
    requires Run(states, labels) && a <= b < |states| && Waking(states[a], w, m, c)
    requires forall k :: a <= k <= b ==> m < |states[k].lk| && states[k].lk[m] == w
    ensures Waking(states[b], w, m, c)
  {
    hide Inv, Step, Waking;
    if a < b {
      WakingOn(states, labels, a, b - 1, w, m, c);
      RunInv(states, labels, b - 1);
      assert StepsTo(states[b - 1], labels[b - 1], states[b]);
      WakingStep(states[b - 1], labels[b - 1], w, m, c);
    }
  }

  /** A process that has woken a channel in its critical section: nobody else is committed to the channel. */
  lemma NobodyLeft<D>(s: State<D>, w: nat, m: nat, c: nat, i: nat)
    requires Inv(s) && m < |s.lk| && s.lk[m] == w && c in s.woken[m] && i != w
    ensures !Committed(s, i, m, c)
  {
    assert i < |s.pc| && Asleep(s.pc[i], s.st[i]) ==> ReachedAt(s.pc, s.lk, s.woken, i);
  }

  /** The step that ends a critical section in which `c` was woken. */
  lemma SectionEnds<D>(s: State<D>, l: Label<D>, w: nat, m: nat, c: nat, i: nat)
    requires Inv(s) && Enabled(s, l) && Waking(s, w, m, c) && Step(s, l).lk[m] != w && i != w
    ensures c in s.woken[m] && !Committed(Step(s, l), i, m, c)
  {
    hide LocksOk, StatesOk, Reached;
    assert l.i == w && (l.Leave? || (l.Go? && s.pc[w].SleepRelease?));
    NobodyLeft(s, w, m, c, i);
  }

  /** No wakeup is lost. A process calls wakeup(c) while it holds lock `m` (step `a`) and gives the lock up later (step
      `b`), by release or by sleeping itself. Then nobody else who had called sleep(c, m) before is still in it. */
  lemma WakeupReachesAll<D>(states: seq<State<D>>, labels: seq<Label<D>>, a: nat, b: nat, w: nat, m: nat, c: nat,
      i: nat)
    requires Run(states, labels) && a < b < |labels| && w < |states[a].pc| && labels[a] == Wakeup(w, c)
    requires states[a].pc[w] == In(m)
    requires forall k :: a <= k <= b ==> m < |states[k].lk| && states[k].lk[m] == w
    requires m < |states[b + 1].lk| && states[b + 1].lk[m] != w && i != w
    ensures !Committed(states[b + 1], i, m, c)
  {
    hide Inv;
    assert StepsTo(states[a], labels[a], states[a + 1]);
    assert Waking(states[a + 1], w, m, c);
    WakingOn(states, labels, a + 1, b, w, m, c);
    RunInv(states, labels, b);
    assert StepsTo(states[b], labels[b], states[b + 1]);
    SectionEnds(states[b], labels[b], w, m, c, i);
  }

  // ---------------------------------------------------------------- conditions

  /** Every channel whose condition has come true in this critical section has been woken in it. */
  ghost predicate Paid<D(!new)>(blocked: (nat, nat, D) -> bool, m: nat, was: D, data: D, woken: set<nat>) {
    forall c: nat :: blocked(m, c, was) && !blocked(m, c, data) ==> c in woken
  }

  lemma Unpaid<D(!new)>(blocked: (nat, nat, D) -> bool, m: nat, was: D, data: D, woken: set<nat>, c: nat)
    requires blocked(m, c, was) && !blocked(m, c, data) && c !in woken
    ensures !Paid(blocked, m, was, data, woken)
  {
  }

  /** The discipline of a monitor. `blocked(m, c, d)` says that the processes on channel `c` of lock `m` have to wait
      when its data is `d`. A process goes to sleep on a channel only while it is blocked, and gives a lock up only
      after it has woken every channel that it has unblocked. */
  ghost predicate Obeys<D(!new)>(blocked: (nat, nat, D) -> bool, s: State<D>, l: Label<D>)
    requires Shaped(s) && Enabled(s, l)
  {
    (l.Sleep? || l.Leave? ==>
        Paid(blocked, s.pc[l.i].m, s.was[s.pc[l.i].m], s.data[s.pc[l.i].m], s.woken[s.pc[l.i].m])) &&
    (l.Sleep? ==> blocked(s.pc[l.i].m, l.c, s.data[s.pc[l.i].m]))
  }

  /** What holds of a committed process: its condition was false when the lock was last acquired, or is still false. */
  ghost predicate WaitsFor<D(!new)>(blocked: (nat, nat, D) -> bool, s: State<D>, i: nat)
    requires Shaped(s) && i < |s.pc| && Asleep(s.pc[i], s.st[i])
  {
    var m, c := s.pc[i].m, s.pc[i].c;
    && m < |s.lk|
    && (s.lk[m] == i ==> blocked(m, c, s.data[m]) && Paid(blocked, m, s.was[m], s.data[m], s.woken[m]))
    && (s.lk[m] == NONE ==> blocked(m, c, s.data[m]))
    && (s.lk[m] != NONE && s.lk[m] != i ==> blocked(m, c, s.was[m]))
  }

  ghost predicate Waiting<D(!new)>(blocked: (nat, nat, D) -> bool, s: State<D>) {
    Shaped(s) && forall i :: 0 <= i < |s.pc| && Asleep(s.pc[i], s.st[i]) ==> WaitsFor(blocked, s, i)
  }

  /** What a step of another process means for a committed process. */
  lemma OtherWaits<D(!new)>(blocked: (nat, nat, D) -> bool, s: State<D>, l: Label<D>, k: nat)
    requires Inv(s) && Enabled(s, l) && Obeys(blocked, s, l) && Waiting(blocked, s) && k < |s.pc| && k != l.i
    requires Asleep(s.pc[k], Step(s, l).st[k])
    ensures WaitsFor(blocked, Step(s, l), k)
  {
    hide LocksOk, StatesOk, Reached, Paid;
    assert Asleep(s.pc[k], s.st[k]) && WaitsFor(blocked, s, k);
    var m, c := s.pc[k].m, s.pc[k].c;
    if s.lk[m] == l.i {
      if Step(s, l).lk[m] == NONE {
        assert HoldsLk(s.pc[l.i]) && s.pc[l.i].m == m;
        Released(blocked, s, l, k);
      }
    }
  }

  /** The lock goes free: what was blocked and not woken is still blocked. */
  lemma Released<D(!new)>(blocked: (nat, nat, D) -> bool, s: State<D>, l: Label<D>, k: nat)
    requires Inv(s) && Enabled(s, l) && Obeys(blocked, s, l) && Waiting(blocked, s) && k < |s.pc| && k != l.i
    requires Asleep(s.pc[k], s.st[k]) && WaitsFor(blocked, s, k) && s.lk[s.pc[k].m] == l.i
    requires Step(s, l).lk[s.pc[k].m] == NONE
    ensures blocked(s.pc[k].m, s.pc[k].c, s.data[s.pc[k].m])
  {
    hide LocksOk, StatesOk, Reached;
    var m, c := s.pc[k].m, s.pc[k].c;
    assert HoldsLk(s.pc[l.i]) && s.pc[l.i].m == m && Committed(s, k, m, c);
    if c in s.woken[m] {
      NobodyLeft(s, l.i, m, c, k);
    } else if l.Go? {
      assert s.pc[l.i].SleepRelease? && WaitsFor(blocked, s, l.i);
    }
  }

  lemma OwnWaits<D(!new)>(blocked: (nat, nat, D) -> bool, s: State<D>, l: Label<D>)
    requires Inv(s) && Enabled(s, l) && Obeys(blocked, s, l) && Waiting(blocked, s)
    requires Asleep(Step(s, l).pc[l.i], Step(s, l).st[l.i])
    ensures WaitsFor(blocked, Step(s, l), l.i)
  {
    hide LocksOk, StatesOk, Reached, Paid;
    var i := l.i;
    assert Asleep(s.pc[i], s.st[i]) ==> WaitsFor(blocked, s, i);
    assert HoldsLk(s.pc[i]) ==> s.lk[s.pc[i].m] == i;
  }

  lemma WaitingStep<D(!new)>(blocked: (nat, nat, D) -> bool, s: State<D>, l: Label<D>)
    requires Inv(s) && Enabled(s, l) && Obeys(blocked, s, l) && Waiting(blocked, s)
    ensures Waiting(blocked, Step(s, l))
  {
    hide Inv, WaitsFor, Obeys;
    var r := Step(s, l);
    forall k | 0 <= k < |r.pc| && Asleep(r.pc[k], r.st[k]) ensures WaitsFor(blocked, r, k) {
      if k == l.i {
        OwnWaits(blocked, s, l);
      } else {
        assert r.pc[k] == s.pc[k];
        OtherWaits(blocked, s, l, k);
      }
    }
  }

  ghost predicate Monitored<D(!new)>(blocked: (nat, nat, D) -> bool, states: seq<State<D>>, labels: seq<Label<D>>) {
    Run(states, labels) && forall k ::
        0 <= k < |labels| ==> StepsTo(states[k], labels[k], states[k + 1]) && Obeys(blocked, states[k], labels[k])
  }

  lemma {:induction false} MonitorInv<D(!new)>(blocked: (nat, nat, D) -> bool, states: seq<State<D>>,
      labels: seq<Label<D>>, k: nat)
    requires Monitored(blocked, states, labels) && k < |states|
    ensures Waiting(blocked, states[k])
  {
    hide Inv, Step, Enabled, Obeys, WaitsFor;
    if k > 0 {
      MonitorInv(blocked, states, labels, k - 1);
      RunInv(states, labels, k - 1);
      assert StepsTo(states[k - 1], labels[k - 1], states[k]);
      WaitingStep(blocked, states[k - 1], labels[k - 1]);
    }
  }

  /** The monitor theorem. In every interleaving of processes that obey the discipline, whenever lock `m` is free, no
      process sleeps on a channel of it, or is about to, unless its condition makes it wait. */
  lemma NoLostWakeup<D(!new)>(blocked: (nat, nat, D) -> bool, states: seq<State<D>>, labels: seq<Label<D>>, k: nat,
      i: nat, m: nat, c: nat)
    requires Monitored(blocked, states, labels) && k < |states| && m < |states[k].lk| && states[k].lk[m] == NONE
    requires Committed(states[k], i, m, c)
    ensures m < |states[k].data| && blocked(m, c, states[k].data[m])
  {
    MonitorInv(blocked, states, labels, k);
    assert WaitsFor(blocked, states[k], i);
  }
}
