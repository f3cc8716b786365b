/** The process table: what holds of it whenever wait_lock is free. */
module ProcState {
  datatype Run = Unused | Used | Sleeping | Runnable | Running | Zombie

  /** A channel is the address of a process or something else. */
  datatype Chan = NoChan | OfProc(i: int) | Other(k: nat)

  const NOBODY := -1

  /** `parent` is an index into the table, or NOBODY. */
  datatype Proc = Proc(state: Run, pid: nat, parent: int, chan: Chan, killed: bool, xstate: int)

  const FREE := Proc(Unused, 0, NOBODY, NoChan, false, 0)

  type Table = seq<Proc>

  /** What wait has returned: a pid, its exit status, and the process that got them. */
  datatype Reap = Reap(pid: nat, status: int, parent: nat)

  predicate Alive(r: Run) {
    r.Sleeping? || r.Runnable? || r.Running?
  }

  // ---------------------------------------------------------------- family

  ghost predicate ProcOk(t: Table, init: nat, i: nat)
    requires i < |t|
  {
    var p := t[i];
    && (p.parent == NOBODY || (0 <= p.parent < |t| && p.parent != i && Alive(t[p.parent].state)))
    && (p.state.Unused? <==> p.pid == 0) && (p.state.Unused? ==> p.parent == NOBODY)
    && ((Alive(p.state) || p.state.Zombie?) && i != init ==> p.parent != NOBODY)
  }

  /** Every parent pointer names a process that can still wait for its children, and every process but the first has
      one. */
  ghost predicate Family(t: Table, init: nat) {
    init < |t| && Alive(t[init].state) && t[init].parent == NOBODY && forall i {:trigger ProcOk(t, init, i)} ::
        0 <= i < |t| ==> ProcOk(t, init, i)
  }

  // ---------------------------------------------------------------- pids

  /** Pids in use are distinct, and no pid that was ever handed back is in use again. */
  ghost predicate Pids(t: Table, nextpid: nat, reaped: seq<Reap>) {
    && nextpid > 0 && (forall i :: 0 <= i < |t| ==> t[i].pid < nextpid)
    && (forall i, j :: 0 <= i < j < |t| && t[i].pid == t[j].pid ==> t[i].pid == 0)
    && (forall k :: 0 <= k < |reaped| ==> 0 < reaped[k].pid < nextpid)
    && (forall k, i :: 0 <= k < |reaped| && 0 <= i < |t| ==> reaped[k].pid != t[i].pid)
    && (forall j, k :: 0 <= j < k < |reaped| ==> reaped[j].pid != reaped[k].pid)
  }

  // ---------------------------------------------------------------- CPUs

  /** A process that runs, or is on its way out with its lock held, is on one CPU, and no other process is on any. */
  ghost predicate Cpus(t: Table, locked: seq<bool>, cpus: seq<int>, cpuOf: seq<int>) {
    && |locked| == |t| && |cpuOf| == |t|
    && (forall p ::
          0 <= p < |t| && (t[p].state.Running? || locked[p]) ==> 0 <= cpuOf[p] < |cpus| && cpus[cpuOf[p]] == p)
    && (forall c ::
          0 <= c < |cpus| && cpus[c] != NOBODY ==>
          0 <= cpus[c] < |t| && cpuOf[cpus[c]] == c && (t[cpus[c]].state.Running? || locked[cpus[c]]))
    && (forall p :: 0 <= p < |t| && locked[p] ==> t[p].state.Sleeping? || t[p].state.Runnable? || t[p].state.Zombie?)
  }

  /** So a running process is current on exactly one CPU. */
  lemma OnOneCpu(t: Table, locked: seq<bool>, cpus: seq<int>, cpuOf: seq<int>, p: nat)
    requires Cpus(t, locked, cpus, cpuOf) && p < |t| && t[p].state.Running?
    ensures exists c :: 0 <= c < |cpus| && cpus[c] == p && forall d :: 0 <= d < |cpus| && cpus[d] == p ==> d == c
  {
    assert cpus[cpuOf[p]] == p;
  }

  // ---------------------------------------------------------------- exit and wait

  /** A process asleep in wait has no child to collect. */
  ghost predicate Waiters(t: Table) {
    forall p, i ::
        0 <= p < |t| && 0 <= i < |t| && t[p].state.Sleeping? && t[p].chan == OfProc(p) && t[i].parent == p ==>
        !t[i].state.Zombie?
  }

  /** Exit statuses by pid, and what wait has returned of them. */
  ghost predicate Exits(t: Table, exited: map<nat, int>, reaped: seq<Reap>, nextpid: nat) {
    && (forall i :: 0 <= i < |t| && t[i].state.Zombie? ==> t[i].pid in exited && exited[t[i].pid] == t[i].xstate)
    && (forall k :: 0 <= k < |reaped| ==> reaped[k].pid in exited && exited[reaped[k].pid] == reaped[k].status)
    && (forall i :: 0 <= i < |t| && !t[i].state.Zombie? ==> t[i].pid !in exited)
    && (forall q :: q in exited ==> 0 < q < nextpid)
  }

  // ---------------------------------------------------------------- wakeup and reparent

  predicate Hit(p: Proc, chan: Chan) {
    p.state.Sleeping? && p.chan == chan
  }

  ghost function Awake(t: Table, me: int, chan: Chan, n: nat): (r: Table)
    requires n <= |t|
    ensures |r| == |t| && forall i ::
              0 <= i < |t| ==> r[i] == if i < n && i != me && Hit(t[i], chan) then t[i].(state := Runnable) else t[i]
  {
    seq(|t|, i requires 0 <= i < |t| => if i < n && i != me && Hit(t[i], chan) then t[i].(state := Runnable) else t[i])
  }

  ghost predicate HasChild(t: Table, p: int, n: nat)
    requires n <= |t|
  {
    exists i :: 0 <= i < n && t[i].parent == p
  }

  /** The first `n` processes have got a new parent, and that one has been woken if there was any. */
  ghost predicate Moved(t: Table, t': Table, me: int, p: int, init: nat, n: nat) {
    && |t'| == |t| && n <= |t|
    && (forall i :: 0 <= i < |t| ==>
         t'[i] == t[i].(parent := if i < n && t[i].parent == p then init else t[i].parent,
                        state := if i != me && HasChild(t, p, n) && Hit(t[i], OfProc(init)) then Runnable
                            else t[i].state))
  }

  // ---------------------------------------------------------------- changing one process

  lemma FamilySet(t: Table, init: nat, i: nat, q: Proc)
    requires Family(t, init) && i < |t|
    requires q.parent == NOBODY || (0 <= q.parent < |t| && q.parent != i && Alive(t[q.parent].state))
    requires (q.state.Unused? <==> q.pid == 0) && (q.state.Unused? ==> q.parent == NOBODY)
    requires (Alive(q.state) || q.state.Zombie?) && i != init ==> q.parent != NOBODY
    requires Alive(t[i].state) && !Alive(q.state) ==> i != init && forall j :: 0 <= j < |t| ==> t[j].parent != i
    requires i == init ==> q.parent == NOBODY
    ensures Family(t[i := q], init)
  {
    var t' := t[i := q];
    forall j | 0 <= j < |t| ensures ProcOk(t', init, j) {
      assert ProcOk(t, init, j);
    }
  }

  lemma PidsSame(t: Table, nextpid: nat, reaped: seq<Reap>, t': Table)
    requires Pids(t, nextpid, reaped) && |t'| == |t| && forall i :: 0 <= i < |t| ==> t'[i].pid == t[i].pid
    ensures Pids(t', nextpid, reaped)
  {
  }

  lemma PidsNew(t: Table, nextpid: nat, reaped: seq<Reap>, i: nat, q: Proc)
    requires Pids(t, nextpid, reaped) && i < |t| && (q.pid == nextpid || q.pid == 0)
    ensures Pids(t[i := q], nextpid + 1, reaped) && (q.pid == 0 ==> Pids(t[i := q], nextpid, reaped))
  {
  }

  lemma CpusSame(t: Table, locked: seq<bool>, cpus: seq<int>, cpuOf: seq<int>, t': Table)
    requires Cpus(t, locked, cpus, cpuOf) && |t'| == |t|
    requires forall i :: 0 <= i < |t| ==> (t'[i].state.Running? <==> t[i].state.Running?)
    requires forall i ::
              0 <= i < |t| && locked[i] ==> t'[i].state.Sleeping? || t'[i].state.Runnable? || t'[i].state.Zombie?
    ensures Cpus(t', locked, cpus, cpuOf)
  {
  }

  lemma WaitersSet(t: Table, i: nat, q: Proc)
    requires Waiters(t) && i < |t| && (q.state.Zombie? ==> t[i].state.Zombie? && q.parent == t[i].parent)
    requires q.state.Sleeping? && q.chan == OfProc(i) ==> forall j ::
              0 <= j < |t| && t[j].parent == i ==> !t[j].state.Zombie?
    ensures Waiters(t[i := q])
  {
  }

  lemma ExitsSet(t: Table, exited: map<nat, int>, reaped: seq<Reap>, nextpid: nat, i: nat, q: Proc)
    requires Exits(t, exited, reaped, nextpid) && i < |t| && !q.state.Zombie?
    requires (q.pid == 0 || q.pid == nextpid || (q.pid == t[i].pid && !t[i].state.Zombie?))
    ensures Exits(t[i := q], exited, reaped, nextpid + 1) && Exits(t[i := q], exited, reaped, nextpid)
  {
  }

  /** Waking processes changes none of this. */
  lemma AwakeOk(t: Table, init: nat, nextpid: nat, reaped: seq<Reap>, locked: seq<bool>, cpus: seq<int>,
      cpuOf: seq<int>, exited: map<nat, int>, me: int, chan: Chan)
    requires Family(t, init) && Pids(t, nextpid, reaped) && Cpus(t, locked, cpus, cpuOf) && Waiters(t)
    requires Exits(t, exited, reaped, nextpid)
    ensures var t' := Awake(t, me, chan, |t|);
              Family(t', init) && Pids(t', nextpid, reaped) && Cpus(t', locked, cpus, cpuOf) && Waiters(t')
              && Exits(t', exited, reaped, nextpid)
  {
    var t' := Awake(t, me, chan, |t|);
    AwakeFamily(t, init, t');
    PidsSame(t, nextpid, reaped, t');
    CpusSame(t, locked, cpus, cpuOf, t');
  }

  lemma AwakeFamily(t: Table, init: nat, t': Table)
    requires Family(t, init) && |t'| == |t| && forall i ::
              0 <= i < |t| ==> t'[i] == t[i] || (t[i].state.Sleeping? && t'[i] == t[i].(state := Runnable))
    ensures Family(t', init)
  {
    forall j | 0 <= j < |t| ensures ProcOk(t', init, j) {
      assert ProcOk(t, init, j);
    }
  }

  /** After reparent nobody has parent `p`, and the first process is awake if it has got zombies. */
  lemma MovedOk(t: Table, t': Table, init: nat, nextpid: nat, reaped: seq<Reap>, locked: seq<bool>, cpus: seq<int>,
      cpuOf: seq<int>, exited: map<nat, int>, p: nat)
    requires Family(t, init) && Pids(t, nextpid, reaped) && Cpus(t, locked, cpus, cpuOf) && Waiters(t)
    requires Exits(t, exited, reaped, nextpid)
    requires p < |t| && p != init && Moved(t, t', p, p, init, |t|) && t[p].state.Running?
    ensures Family(t', init) && Pids(t', nextpid, reaped) && Cpus(t', locked, cpus, cpuOf) && Waiters(t')
    ensures Exits(t', exited, reaped, nextpid)
    ensures (forall j :: 0 <= j < |t| ==> t'[j].parent != p) && t'[p] == t[p]
  {
    assert ProcOk(t, init, init) && ProcOk(t, init, p);
    MovedFamily(t, t', init, p);
    PidsSame(t, nextpid, reaped, t');
    CpusSame(t, locked, cpus, cpuOf, t');
    MovedWaiters(t, t', init, p);
  }

  lemma MovedFamily(t: Table, t': Table, init: nat, p: nat)
    requires Family(t, init) && p < |t| && p != init && Moved(t, t', p, p, init, |t|)
    ensures Family(t', init)
  {
    forall j | 0 <= j < |t| ensures ProcOk(t', init, j) {
      assert ProcOk(t, init, j) && ProcOk(t, init, init);
    }
  }

  lemma MovedWaiters(t: Table, t': Table, init: nat, p: nat)
    requires Waiters(t) && p < |t| && init < |t| && p != init && Moved(t, t', p, p, init, |t|)
    ensures Waiters(t')
  {
    forall q, i | 0 <= q < |t| && 0 <= i < |t| && t'[q].state.Sleeping? && t'[q].chan == OfProc(q) && t'[i].parent == q
        ensures !t'[i].state.Zombie? {
      if q == init && t[i].parent == p {
        assert HasChild(t, p, |t|);
      }
    }
  }
}
