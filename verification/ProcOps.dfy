/** fork, exit, wait, kill and the scheduler (kernel/proc.c). Each method is what one process or CPU does while it holds
    the locks it needs; any interleaving of them is a run. */
module ProcOps {
  import opened ProcState

  datatype Waited =
    | Reaped(pid: nat, status: int)
    | Failed          // no children, killed, or the status could not be copied out
    | Spins           // waits for the lock of a child that is leaving its CPU
    | Sleeps

  class Kernel {
    /** initproc. */
    const init: nat
    var procs: Table
    /** The process holds its own lock until the scheduler has taken its CPU over. */
    var locked: seq<bool>
    /** Current process of each CPU. */
    var cpus: seq<int>
    var nextpid: nat
    ghost var cpuOf: seq<int>
    ghost var exited: map<nat, int>
    ghost var reaped: seq<Reap>

    ghost predicate Valid()
      reads this
    {
      && Family(procs, init) && Pids(procs, nextpid, reaped) && Cpus(procs, locked, cpus, cpuOf) && Waiters(procs)
      && Exits(procs, exited, reaped, nextpid)
    }

    ghost predicate RunsOn(p: nat, c: nat)
      reads this
    {
      p < |procs| && c < |cpus| && cpus[c] == p && procs[p].state.Running?
    }

    /** The table after userinit: one process, ready to run. */
    constructor (nproc: nat, ncpu: nat)
      requires nproc > 0
      ensures Valid() && init == 0 && |procs| == nproc && procs[0].state == Runnable && reaped == [] && |cpus| == ncpu
      ensures forall i :: 0 < i < nproc ==> procs[i] == FREE
    {
      init := 0;
      procs := seq(nproc, i => if i == 0 then Proc(Runnable, 1, NOBODY, NoChan, false, 0) else FREE);
      locked := seq(nproc, i => false);
      cpus := seq(ncpu, c => NOBODY);
      cpuOf := seq(nproc, i => NOBODY);
      nextpid := 2;
      exited, reaped := map[], [];
      new;
      FirstFamily(procs);
    }

    // -------------------------------------------------------------- wakeup

    /** wakeup called by process `me`, or by no process. */
    method Wakeup(me: int, chan: Chan)
      modifies this`procs
      ensures procs == Awake(old(procs), me, chan, |old(procs)|)
      ensures forall i :: 0 <= i < |procs| ==>
                procs[i] == if i != me && old(procs)[i].state.Sleeping? && old(procs)[i].chan == chan
                            then old(procs)[i].(state := Runnable) else old(procs)[i]
    {
      var i := 0;
      while i < |procs|
        invariant |procs| == |old(procs)| && i <= |procs| && procs == Awake(old(procs), me, chan, i)
      {
        if i != me {
          if procs[i].state.Sleeping? && procs[i].chan == chan {
            procs := procs[i := procs[i].(state := Runnable)];
          }
        }
        i := i + 1;
      }
    }

    /** reparent: the children of `p` go to the first process. */
    method Reparent(p: nat)
      requires init < |procs| && p < |procs| && p != init
      modifies this`procs
      ensures Moved(old(procs), procs, p, p, init, |procs|)
    {
      var i := 0;
      while i < |procs|
        invariant i <= |procs| && Moved(old(procs), procs, p, p, init, i)
      {
        ghost var t := procs;
        if procs[i].parent == p {
          procs := procs[i := procs[i].(parent := init)];
          Wakeup(p, OfProc(init));
        }
        i := i + 1;
      }
    }

    // -------------------------------------------------------------- fork

    /** allocproc. Without memory for the new process its slot is free again. */
    method Allocproc(memory: bool) returns (np: int)
      requires Valid()
      modifies this`procs, this`nextpid
      ensures Valid() && np == if memory && FirstFree(old(procs)) < |old(procs)| then FirstFree(old(procs)) else NOBODY
      ensures
        var i := FirstFree(old(procs));
        if i == |old(procs)| then unchanged(this)
        else if memory then procs == old(procs)[i := old(procs)[i].(state := Used, pid := old(nextpid))]
        else procs == old(procs)[i := FREE]
      ensures nextpid == if FirstFree(old(procs)) < |old(procs)| then old(nextpid) + 1 else old(nextpid)
    {
      hide Family, Pids, Cpus, Waiters, Exits;
      var i := 0;
      while i < |procs|
        invariant i <= |procs| && procs == old(procs) && nextpid == old(nextpid) && forall j ::
                  0 <= j < i ==> !procs[j].state.Unused?
      {
        if procs[i].state.Unused? {
          FirstFreeIs(procs, i);
          var p := procs[i].(state := Used, pid := nextpid);
          UsedOk(procs, init, nextpid, reaped, locked, cpus, cpuOf, exited, i);
          nextpid := nextpid + 1;
          procs := procs[i := p];
          if !memory {
            UnusedOk(procs, init, nextpid, reaped, locked, cpus, cpuOf, exited, i);
            procs := procs[i := FREE];
            return NOBODY;
          }
          return i;
        }
        i := i + 1;
      }
      FirstFreeIs(procs, i);
      return NOBODY;
    }

    /** fork gives up after allocproc: the copy of the memory failed. */
    method ForkFail(np: nat)
      requires Valid() && np < |procs| && procs[np].state.Used? && procs[np].parent == NOBODY
      modifies this`procs
      ensures Valid() && procs == old(procs)[np := FREE]
    {
      hide Family, Pids, Cpus, Waiters, Exits;
      UnusedOk(procs, init, nextpid, reaped, locked, cpus, cpuOf, exited, np);
      procs := procs[np := FREE];
    }

    /** fork under wait_lock. */
    method ForkParent(p: nat, c: nat, np: nat)
      requires Valid() && RunsOn(p, c) && np < |procs| && procs[np].state.Used?
      modifies this`procs
      ensures Valid() && procs == old(procs)[np := old(procs)[np].(parent := p)]
    {
      hide Pids, Cpus, Waiters, Exits;
      var q := procs[np].(parent := p);
      assert ProcOk(procs, init, np);
      FamilySet(procs, init, np, q);
      PidsSame(procs, nextpid, reaped, procs[np := q]);
      hide Family;
      SameRun(procs, locked, cpus, cpuOf, exited, reaped, nextpid, np, q);
      procs := procs[np := q];
    }

    /** fork makes the child runnable. */
    method ForkReady(np: nat)
      requires Valid() && np < |procs| && procs[np].state.Used? && procs[np].parent != NOBODY
      modifies this`procs
      ensures Valid() && procs == old(procs)[np := old(procs)[np].(state := Runnable)]
    {
      hide Pids, Cpus, Waiters, Exits;
      var q := procs[np].(state := Runnable);
      assert ProcOk(procs, init, np);
      FamilySet(procs, init, np, q);
      PidsSame(procs, nextpid, reaped, procs[np := q]);
      hide Family;
      SameRun(procs, locked, cpus, cpuOf, exited, reaped, nextpid, np, q);
      procs := procs[np := q];
    }

    // -------------------------------------------------------------- leaving and entering a CPU

    /** The first half of sched: process `p` gives CPU `c` up, holding its own lock. */
    method Leave(p: nat, c: nat, state: Run, chan: Chan)
      requires Valid() && RunsOn(p, c) && (state.Sleeping? || state.Runnable?)
      requires state.Sleeping? && chan == OfProc(p) ==> forall j ::
                0 <= j < |procs| && procs[j].parent == p ==> !procs[j].state.Zombie?
      modifies this`procs, this`locked
      ensures Valid() && procs == old(procs)[p := old(procs)[p].(state := state, chan := chan)]
      ensures locked == old(locked)[p := true]
    {
      hide Pids, Waiters, Exits;
      var q := procs[p].(state := state, chan := chan);
      assert ProcOk(procs, init, p);
      FamilySet(procs, init, p, q);
      hide Family;
      PidsSame(procs, nextpid, reaped, procs[p := q]);
      WaitersSet(procs, p, q);
      ExitsSet(procs, exited, reaped, nextpid, p, q);
      procs := procs[p := q];
      locked := locked[p := true];
    }

    /** The second half: the scheduler of CPU `c` takes over and releases the lock of the process. */
    method Switched(c: nat)
      requires Valid() && c < |cpus| && 0 <= cpus[c] < |locked| && locked[cpus[c]]
      modifies this`cpus, this`locked
      ensures Valid() && cpus == old(cpus)[c := NOBODY] && locked == old(locked)[old(cpus)[c] := false]
    {
      hide Family, Pids, Waiters, Exits;
      var p := cpus[c];
      cpus := cpus[c := NOBODY];
      locked := locked[p := false];
    }

    /** scheduler: an idle CPU runs process `p`, which clears its channel when it comes back from sched. */
    method Dispatch(p: nat, c: nat)
      requires Valid() && c < |cpus| && cpus[c] == NOBODY && p < |procs| && procs[p].state.Runnable? && p < |locked|
      requires !locked[p]
      modifies this`procs, this`cpus, this`cpuOf
      ensures Valid() && RunsOn(p, c) && procs == old(procs)[p := old(procs)[p].(state := Running, chan := NoChan)]
      ensures cpus == old(cpus)[c := p]
    {
      hide Pids, Waiters, Exits;
      var q := procs[p].(state := Running, chan := NoChan);
      assert ProcOk(procs, init, p);
      FamilySet(procs, init, p, q);
      hide Family;
      PidsSame(procs, nextpid, reaped, procs[p := q]);
      WaitersSet(procs, p, q);
      ExitsSet(procs, exited, reaped, nextpid, p, q);
      procs := procs[p := q];
      cpus := cpus[c := p];
      cpuOf := cpuOf[p := c];
    }

    // -------------------------------------------------------------- exit

    /** exit, up to the switch. The children belong to the first process, the parent is awake, the status is kept. */
    method Exit(p: nat, c: nat, status: int)
      requires Valid() && RunsOn(p, c) && p != init
      modifies this`procs, this`locked, this`exited
      ensures Valid() && |procs| == |old(procs)| && procs[p].state.Zombie? && procs[p].xstate == status
      ensures locked == old(locked)[p := true]
      ensures procs[p].pid == old(procs)[p].pid && procs[p].parent == old(procs)[p].parent
      ensures exited == old(exited)[procs[p].pid := status]
      ensures forall j :: 0 <= j < |procs| && j != p ==>
                procs[j] == old(procs)[j].(
                  parent := if old(procs)[j].parent == p then init else old(procs)[j].parent,
                  state := if old(procs)[j].state.Sleeping?
                                && (old(procs)[j].chan == OfProc(old(procs)[p].parent)
                                    || (old(procs)[j].chan == OfProc(init)
                                        && exists k :: 0 <= k < |procs| && old(procs)[k].parent == p))
                           then Runnable else old(procs)[j].state)
      ensures var q := procs[p].parent; 0 <= q < |procs| && !(procs[q].state.Sleeping? && procs[q].chan == OfProc(q))
    {
      hide Family, Pids, Cpus, Waiters, Exits, Alive, Moved, Awake;
      ghost var t := procs;
      RunningIsAlive(procs, p);
      FamilyFacts(procs, init, p);
      Reparent(p);
      ghost var t1 := procs;
      MovedOk(t, t1, init, nextpid, reaped, locked, cpus, cpuOf, exited, p);
      Wakeup(p, OfProc(procs[p].parent));
      ghost var t2 := procs;
      AwakeOk(t1, init, nextpid, reaped, locked, cpus, cpuOf, exited, p, OfProc(t1[p].parent));
      ZombieOk(t2, init, nextpid, reaped, locked, cpus, cpuOf, exited, p, c, status);
      exited := exited[procs[p].pid := status];
      procs := procs[p := procs[p].(xstate := status)];
      procs := procs[p := procs[p].(state := Zombie)];
      assert procs == t2[p := t2[p].(state := Zombie, xstate := status)];
      ExitTable(t, t1, t2, procs, p, init, status);
      locked := locked[p := true];
    }

    // -------------------------------------------------------------- wait

    /** One round of wait by process `p`. Child `i` is the first that is a zombie or whose lock is held, the end of
        the table if there is none. A child is collected only when it has left its CPU. */
    method Wait(p: nat, c: nat, copies: bool) returns (r: Waited, ghost i: nat)
      requires Valid() && RunsOn(p, c)
      modifies this`procs, this`locked, this`reaped
      ensures Valid() && |old(locked)| == |old(procs)| && p < |old(procs)| && i <= |old(procs)|
      ensures forall j :: 0 <= j < i && old(procs)[j].parent == p ==> !old(procs)[j].state.Zombie? && !old(locked)[j]
      ensures i < |old(procs)| ==> old(procs)[i].parent == p && (old(procs)[i].state.Zombie? || old(locked)[i])
      ensures r.Spins? <==> i < |old(procs)| && old(locked)[i]
      ensures r.Reaped? <==> i < |old(procs)| && !old(locked)[i] && copies
      ensures r.Reaped? ==> Collected(old(procs), procs, p, i, r.pid, r.status)
      ensures r.Sleeps? <==>
                && (exists j :: 0 <= j < |old(procs)| && old(procs)[j].parent == p)
                && !old(procs)[p].killed
                && forall j :: 0 <= j < |old(procs)| && old(procs)[j].parent == p ==>
                     !old(procs)[j].state.Zombie? && !old(locked)[j]
      ensures r.Failed? && i == |old(procs)| ==>
                old(procs)[p].killed || forall j :: 0 <= j < |old(procs)| ==> old(procs)[j].parent != p
      ensures r.Failed? && i < |old(procs)| ==> !copies && old(procs)[i].state.Zombie? && !old(locked)[i]
      ensures reaped == if r.Reaped? then old(reaped) + [Reap(r.pid, r.status, p)] else old(reaped)
      ensures r.Failed? || r.Spins? ==> procs == old(procs)
      ensures locked == if r.Sleeps? then old(locked)[p := true] else old(locked)
      ensures r.Sleeps? ==> procs == old(procs)[p := old(procs)[p].(state := Sleeping, chan := OfProc(p))]
    {
      hide Family, Pids, Cpus, Waiters, Exits;
      CpuFacts(procs, locked, cpus, cpuOf);
      var havekids := false;
      var k := 0;
      while k < |procs|
        invariant k <= |procs| && procs == old(procs) && locked == old(locked) && reaped == old(reaped) && Valid()
        invariant forall j :: 0 <= j < k && procs[j].parent == p ==> !procs[j].state.Zombie? && !locked[j]
        invariant havekids <==> HasChild(procs, p, k)
      {
        i := k;
        if procs[k].parent == p {
          if locked[k] {
            return Spins, k;
          }
          havekids := true;
          if procs[k].state.Zombie? {
            var pid, status := procs[k].pid, procs[k].xstate;
            if !copies {
              return Failed, k;
            }
            ReapOk(procs, init, nextpid, reaped, locked, cpus, cpuOf, exited, k, p);
            procs := procs[k := FREE];
            reaped := reaped + [Reap(pid, status, p)];
            assert Collected(old(procs), procs, p, k, pid, status);
            return Reaped(pid, status), k;
          }
        }
        k := k + 1;
      }
      i := k;
      if !havekids || procs[p].killed {
        return Failed, i;
      }
      Leave(p, c, Sleeping, OfProc(p));
      return Sleeps, i;
    }

    // -------------------------------------------------------------- kill

    /** kill. The slot it marks holds a process exactly when `pid` is not 0: a free slot has pid 0 and is found too. */
    method Kill(pid: int) returns (r: int, ghost i: nat)
      requires Valid()
      modifies this`procs
      ensures Valid() && (r == 0 || r == -1)
      ensures r == -1 ==> procs == old(procs) && forall j :: 0 <= j < |procs| ==> procs[j].pid != pid
      ensures r == 0 ==> i < |procs| && old(procs)[i].pid == pid && procs == old(procs)[i := Killed(old(procs)[i])]
      ensures r == 0 ==>
                && procs[i].killed && !procs[i].state.Sleeping? && procs[i].pid == pid
                && (procs[i].state == old(procs)[i].state
                      || (old(procs)[i].state.Sleeping? && procs[i].state.Runnable?))
      ensures r == 0 ==> forall j :: 0 <= j < i ==> procs[j].pid != pid
      ensures r == 0 ==> (old(procs)[i].state.Unused? <==> pid == 0)
      ensures r == 0 && pid != 0 ==> forall j :: 0 <= j < |procs| && j != i ==> procs[j].pid != pid
    {
      hide Cpus, Waiters, Exits;
      i := 0;
      var k := 0;
      while k < |procs|
        invariant k <= |procs| && procs == old(procs) && forall j :: 0 <= j < k ==> procs[j].pid != pid
      {
        if procs[k].pid == pid {
          KillOk(procs, init, nextpid, reaped, locked, cpus, cpuOf, exited, k);
          assert ProcOk(procs, init, k);
          hide Family;
          var q := procs[k].(killed := true);
          if q.state.Sleeping? {
            q := q.(state := Runnable);
          }
          procs := procs[k := q];
          return 0, k;
        }
        k := k + 1;
      }
      r := -1;
    }
  }

  /** The table after exit. */
  lemma ExitTable(t: Table, t1: Table, t2: Table, t': Table, p: nat, init: nat, status: int)
    requires Moved(t, t1, p, p, init, |t|) && p < |t| && t[p].parent != p && 0 <= t[p].parent < |t|
    requires t2 == Awake(t1, p, OfProc(t1[p].parent), |t1|)
    requires t' == t2[p := t2[p].(state := Zombie, xstate := status)]
    ensures |t'| == |t| && t'[p] == t[p].(state := Zombie, xstate := status)
    ensures forall j :: 0 <= j < |t| && j != p ==>
              t'[j] == t[j].(
                parent := if t[j].parent == p then init else t[j].parent,
                state := if t[j].state.Sleeping?
                              && (t[j].chan == OfProc(t[p].parent)
                                  || (t[j].chan == OfProc(init)
                                      && exists k :: 0 <= k < |t| && t[k].parent == p))
                         then Runnable else t[j].state)
    ensures var q := t[p].parent; !(t'[q].state.Sleeping? && t'[q].chan == OfProc(q))
  {
    assert HasChild(t, p, |t|) <==> exists k :: 0 <= k < |t| && t[k].parent == p;
  }

  ghost function Killed(p: Proc): Proc {
    p.(killed := true, state := if p.state.Sleeping? then Runnable else p.state)
  }

  lemma KillOk(t: Table, init: nat, nextpid: nat, reaped: seq<Reap>, locked: seq<bool>, cpus: seq<int>,
      cpuOf: seq<int>, exited: map<nat, int>, i: nat)
    requires Family(t, init) && Pids(t, nextpid, reaped) && Cpus(t, locked, cpus, cpuOf) && Waiters(t)
    requires Exits(t, exited, reaped, nextpid) && i < |t|
    ensures var t' := t[i := Killed(t[i])];
              Family(t', init) && Pids(t', nextpid, reaped) && Cpus(t', locked, cpus, cpuOf) && Waiters(t')
              && Exits(t', exited, reaped, nextpid)
  {
    var q := Killed(t[i]);
    assert ProcOk(t, init, i);
    FamilySet(t, init, i, q);
    hide Family;
    PidsSame(t, nextpid, reaped, t[i := q]);
    CpusSame(t, locked, cpus, cpuOf, t[i := q]);
    WaitersSet(t, i, q);
  }

  /** The first free slot; the end of the table if there is none. */
  function FirstFree(t: Table): (i: nat)
    ensures i <= |t| && (i < |t| ==> t[i].state.Unused?) && forall j :: 0 <= j < i ==> !t[j].state.Unused?
  {
    if t == [] || t[0].state.Unused? then 0 else 1 + FirstFree(t[1..])
  }

  lemma FirstFreeIs(t: Table, i: nat)
    requires i <= |t| && (i < |t| ==> t[i].state.Unused?) && forall j :: 0 <= j < i ==> !t[j].state.Unused?
    ensures i == FirstFree(t)
  {
  }

  /** kill with pid 0 and then fork, in any state with a free slot: the new process starts out killed. */
  method KilledAtBirth(k: Kernel) returns (np: int)
    requires k.Valid() && FirstFree(k.procs) < |k.procs|
    modifies k
    ensures k.Valid() && np == old(FirstFree(k.procs)) && |k.procs| == |old(k.procs)|
    ensures k.procs[np].state.Used? && k.procs[np].pid == old(k.nextpid) && k.procs[np].killed
  {
    hide Pids, Cpus, Waiters, Exits;
    ghost var t := k.procs;
    ghost var n := FirstFree(t);
    assert ProcOk(t, k.init, n);
    var r, i := k.Kill(0);
    assert k.procs[n].pid == 0 && r == 0;
    assert t[i].state.Unused?;
    FirstFreeIs(k.procs, n);
    np := k.Allocproc(true);
  }

  /** There is such a state: the one after userinit. */
  method KilledAtBoot() returns (k: Kernel, np: int)
    ensures fresh(k) && k.Valid() && 0 <= np < |k.procs| && k.procs[np].state.Used? && k.procs[np].killed
  {
    hide Family, Pids, Cpus, Waiters, Exits;
    k := new Kernel(64, 8);
    FirstFreeIs(k.procs, 1);
    np := KilledAtBirth(k);
  }

  /** Child `i` of `p` was a zombie with this pid and status, and its slot is free now. */
  ghost predicate Collected(t: Table, t': Table, p: nat, i: nat, pid: nat, status: int) {
    && i < |t| && t[i].parent == p && t[i].state.Zombie? && t[i].pid == pid && t[i].xstate == status
          && t' == t[i := FREE]
  }

  lemma RunningIsAlive(t: Table, p: nat)
    requires p < |t| && t[p].state.Running?
    ensures Alive(t[p].state)
  {
  }

  lemma FamilyFacts(t: Table, init: nat, p: nat)
    requires Family(t, init) && p < |t| && Alive(t[p].state)
    ensures init < |t| && (p != init ==> 0 <= t[p].parent < |t| && t[p].parent != p)
  {
    assert ProcOk(t, init, p);
  }

  lemma CpuFacts(t: Table, locked: seq<bool>, cpus: seq<int>, cpuOf: seq<int>)
    requires Cpus(t, locked, cpus, cpuOf)
    ensures |locked| == |t|
  {
  }

  lemma ZombieOk(t: Table, init: nat, nextpid: nat, reaped: seq<Reap>, locked: seq<bool>, cpus: seq<int>,
      cpuOf: seq<int>, exited: map<nat, int>, p: nat, c: nat, status: int)
    requires Family(t, init) && Pids(t, nextpid, reaped) && Cpus(t, locked, cpus, cpuOf) && Waiters(t)
    requires Exits(t, exited, reaped, nextpid)
    requires p < |t| && t[p].state.Running? && p != init && c < |cpus| && cpus[c] == p && forall j ::
              0 <= j < |t| ==> t[j].parent != p
    requires 0 <= t[p].parent < |t| && !Hit(t[t[p].parent], OfProc(t[p].parent))
    ensures
      var t' := t[p := t[p].(state := Zombie, xstate := status)];
      && Family(t', init) && Pids(t', nextpid, reaped) && |locked| == |t| && Cpus(t', locked[p := true], cpus, cpuOf)
            && Waiters(t')
      && Exits(t', exited[t[p].pid := status], reaped, nextpid)
  {
    var q := t[p].(state := Zombie, xstate := status);
    assert ProcOk(t, init, p);
    FamilySet(t, init, p, q);
    PidsSame(t, nextpid, reaped, t[p := q]);
    ZombieExits(t, nextpid, reaped, exited, p, status);
  }

  lemma ZombieExits(t: Table, nextpid: nat, reaped: seq<Reap>, exited: map<nat, int>, p: nat, status: int)
    requires Pids(t, nextpid, reaped) && Exits(t, exited, reaped, nextpid) && p < |t| && t[p].state.Running?
    requires t[p].pid > 0
    ensures Exits(t[p := t[p].(state := Zombie, xstate := status)], exited[t[p].pid := status], reaped, nextpid)
  {
  }

  lemma ReapOk(t: Table, init: nat, nextpid: nat, reaped: seq<Reap>, locked: seq<bool>, cpus: seq<int>,
      cpuOf: seq<int>, exited: map<nat, int>, i: nat, p: nat)
    requires Family(t, init) && Pids(t, nextpid, reaped) && Cpus(t, locked, cpus, cpuOf) && Waiters(t)
    requires Exits(t, exited, reaped, nextpid)
    requires i < |t| && t[i].state.Zombie? && !locked[i]
    ensures
      var t', reaped' := t[i := FREE], reaped + [Reap(t[i].pid, t[i].xstate, p)];
      && Family(t', init) && Pids(t', nextpid, reaped') && Cpus(t', locked, cpus, cpuOf) && Waiters(t')
            && Exits(t', exited, reaped', nextpid)
  {
    ReapedPids(t, init, nextpid, reaped, exited, i, p);
    hide Family, Pids, Cpus, Waiters, Exits;
    UnusedOk(t, init, nextpid, reaped, locked, cpus, cpuOf, exited, i);
  }

  lemma ReapedPids(t: Table, init: nat, nextpid: nat, reaped: seq<Reap>, exited: map<nat, int>, i: nat, p: nat)
    requires Family(t, init) && Pids(t, nextpid, reaped) && Exits(t, exited, reaped, nextpid)
    requires i < |t| && t[i].state.Zombie?
    ensures
      var t', reaped' := t[i := FREE], reaped + [Reap(t[i].pid, t[i].xstate, p)];
      Pids(t', nextpid, reaped') && Exits(t', exited, reaped', nextpid)
  {
    assert ProcOk(t, init, i);
    hide Family;
    var t', reaped' := t[i := FREE], reaped + [Reap(t[i].pid, t[i].xstate, p)];
    assert forall k :: 0 <= k < |reaped| ==> reaped'[k] == reaped[k];
  }

  lemma UsedOk(t: Table, init: nat, nextpid: nat, reaped: seq<Reap>, locked: seq<bool>, cpus: seq<int>,
      cpuOf: seq<int>, exited: map<nat, int>, i: nat)
    requires Family(t, init) && Pids(t, nextpid, reaped) && Cpus(t, locked, cpus, cpuOf) && Waiters(t)
    requires Exits(t, exited, reaped, nextpid)
    requires i < |t| && t[i].state.Unused?
    ensures
      var t' := t[i := t[i].(state := Used, pid := nextpid)];
      && Family(t', init) && Pids(t', nextpid + 1, reaped) && Cpus(t', locked, cpus, cpuOf) && Waiters(t')
            && Exits(t', exited, reaped, nextpid + 1)
  {
    var q := t[i].(state := Used, pid := nextpid);
    assert ProcOk(t, init, i);
    FamilySet(t, init, i, q);
    PidsNew(t, nextpid, reaped, i, q);
    CpusSame(t, locked, cpus, cpuOf, t[i := q]);
    WaitersSet(t, i, q);
    ExitsSet(t, exited, reaped, nextpid, i, q);
  }

  lemma UnusedOk(t: Table, init: nat, nextpid: nat, reaped: seq<Reap>, locked: seq<bool>, cpus: seq<int>,
      cpuOf: seq<int>, exited: map<nat, int>, i: nat)
    requires Family(t, init) && Pids(t, nextpid, reaped) && Cpus(t, locked, cpus, cpuOf) && Waiters(t)
    requires Exits(t, exited, reaped, nextpid)
    requires i < |t| && (t[i].state.Used? || (t[i].state.Zombie? && !locked[i]))
    ensures
      var t' := t[i := FREE];
      && Family(t', init) && Pids(t', nextpid, reaped) && Cpus(t', locked, cpus, cpuOf) && Waiters(t')
            && Exits(t', exited, reaped, nextpid)
  {
    assert ProcOk(t, init, i);
    FamilySet(t, init, i, FREE);
    PidsNew(t, nextpid, reaped, i, FREE);
    CpusSame(t, locked, cpus, cpuOf, t[i := FREE]);
    WaitersSet(t, i, FREE);
    ExitsSet(t, exited, reaped, nextpid, i, FREE);
  }

  /** A change that touches neither running nor exiting. */
  lemma SameRun(t: Table, locked: seq<bool>, cpus: seq<int>, cpuOf: seq<int>, exited: map<nat, int>, reaped: seq<Reap>,
      nextpid: nat, i: nat, q: Proc)
    requires Cpus(t, locked, cpus, cpuOf) && Waiters(t) && Exits(t, exited, reaped, nextpid) && i < |t|
    requires t[i].state.Used? && q.pid == t[i].pid
    requires q.state.Used? || q.state.Runnable?
    ensures var t' := t[i := q]; Cpus(t', locked, cpus, cpuOf) && Waiters(t') && Exits(t', exited, reaped, nextpid)
  {
    CpusSame(t, locked, cpus, cpuOf, t[i := q]);
    WaitersSet(t, i, q);
    ExitsSet(t, exited, reaped, nextpid, i, q);
  }

  lemma FirstFamily(t: Table)
    requires |t| > 0 && forall i ::
              0 <= i < |t| ==> t[i] == if i == 0 then Proc(Runnable, 1, NOBODY, NoChan, false, 0) else FREE
    ensures Family(t, 0)
  {
    forall i | 0 <= i < |t| ensures ProcOk(t, 0, i) {
    }
  }
}
