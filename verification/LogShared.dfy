/** Operations that share commits. Any number of them may be under way at once: they begin, wait, log blocks and end in
    any order and commit together. Two of them that are under way at the same time do not log the same block. */
module LogShared {
  import opened Words
  import opened LogHeader
  import opened LogProtocol
  import opened LogTheorems
  import opened LogRuns
  import opened Transactions
  import opened LogSerial

  /** The updates of the operations that have ended, in the order of their ends, and those that the processes whose
      operations are under way have made. */
  datatype Track = Track(done: seq<seq<Update>>, parts: map<nat, seq<Update>>)

  /** A process other than `p` is under way with an update of block `b`. */
  ghost predicate Busy(parts: map<nat, seq<Update>>, p: nat, b: nat) {
    exists q :: q in parts && q != p && b in Touched(parts[q])
  }

  function Part(parts: map<nat, seq<Update>>, p: nat): seq<Update> {
    if p in parts then parts[p] else []
  }

  /** None if two operations under way log the same block, or if the machine crashes. */
  ghost function NextTrack(k: Track, l: Label): Option<Track> {
    match l
    case LogWrite(p, b, v) =>
      if Busy(k.parts, p, b) then None else Some(k.(parts := k.parts[p := Part(k.parts, p) + [Update(b, v)]]))
    case End(p) => Some(if p in k.parts then Track(k.done + [k.parts[p]], k.parts - {p}) else k)
    case Crash => None
    case _ => Some(k)
  }

  ghost function Follow(ls: seq<Label>): Option<Track> {
    if ls == [] then Some(Track([], map[]))
    else
      match Follow(ls[..|ls| - 1])
      case None => None
      case Some(k) => NextTrack(k, ls[|ls| - 1])
  }

  /** A prefix of the run has finished a prefix of the operations. */
  lemma {:induction false} FollowPrefix(ls: seq<Label>, j: nat)
    requires Follow(ls).Some? && j <= |ls|
    ensures Follow(ls[..j]).Some? && Follow(ls[..j]).value.done <= Follow(ls).value.done
    decreases |ls|
  {
    if j < |ls| {
      var n := |ls| - 1;
      FollowPrefix(ls[..n], j);
      assert ls[..n][..j] == ls[..j];
    } else {
      assert ls[..j] == ls;
    }
  }

  // ---------------------------------------------------------------- updates and blocks

  lemma Appended(blocks: seq<Block>, tx: seq<Update>, u: Update)
    requires u.b < |blocks|
    ensures Apply(blocks, tx + [u]) == Apply(blocks, tx)[u.b := u.v]
    ensures Touched(tx + [u]) == Touched(tx) + if u.b in Touched(tx) then [] else [u.b]
  {
    assert (tx + [u])[..|tx|] == tx;
  }

  lemma {:induction false} Untouched(blocks: seq<Block>, tx: seq<Update>, b: nat)
    requires b < |blocks| && b !in Touched(tx)
    ensures Apply(blocks, tx)[b] == blocks[b]
  {
    if tx != [] {
      Untouched(blocks, tx[..|tx| - 1], b);
    }
  }

  /** What a touched block holds does not depend on what was there before. */
  lemma {:induction false} Overwritten(blocks: seq<Block>, other: seq<Block>, tx: seq<Update>, b: nat)
    requires b < |blocks| == |other| && b in Touched(tx)
    ensures Apply(blocks, tx)[b] == Apply(other, tx)[b]
  {
    var n := |tx| - 1;
    if b in Touched(tx[..n]) {
      Overwritten(blocks, other, tx[..n], b);
    }
  }

  /** What a block holds: the update of the operation under way that has touched it, or what the ended ones have
      left. */
  ghost predicate Holds(base: seq<Block>, parts: map<nat, seq<Update>>, b: nat, v: Block)
    requires b < |base|
  {
    && (forall p :: p in parts && b in Touched(parts[p]) ==> v == Apply(base, parts[p])[b])
    && ((forall p :: p in parts ==> b !in Touched(parts[p])) ==> v == base[b])
  }

  ghost predicate Shows(base: seq<Block>, parts: map<nat, seq<Update>>, blocks: seq<Block>) {
    |blocks| == |base| && forall b :: 0 <= b < |base| ==> Holds(base, parts, b, blocks[b])
  }

  /** Operations under way have no block in common. */
  ghost predicate Apart(parts: map<nat, seq<Update>>) {
    forall p, q, b :: p in parts && q in parts && b in Touched(parts[p]) && b in Touched(parts[q]) ==> p == q
  }

  lemma ShowsWrite(base: seq<Block>, parts: map<nat, seq<Update>>, blocks: seq<Block>, p: nat, u: Update)
    requires Shows(base, parts, blocks) && Apart(parts) && u.b < |base| && !Busy(parts, p, u.b)
    ensures
      var parts' := parts[p := Part(parts, p) + [u]];
      Apart(parts') && Shows(base, parts', blocks[u.b := u.v])
  {
    hide Touched, Apply;
    var parts', blocks' := parts[p := Part(parts, p) + [u]], blocks[u.b := u.v];
    Appended(base, Part(parts, p), u);
    NoUpdates(base);
    forall b | 0 <= b < |base| ensures Holds(base, parts', b, blocks'[b]) {
      assert Holds(base, parts, b, blocks[b]);
      if b != u.b {
        assert b in Touched(parts'[p]) <==> p in parts && b in Touched(parts[p]);
        assert forall q :: q in parts && q != p ==> parts'[q] == parts[q];
      } else {
        assert b in Touched(parts'[p]);
      }
    }
  }

  lemma NoUpdates(blocks: seq<Block>)
    ensures Apply(blocks, []) == blocks && Touched([]) == []
  {
  }

  lemma ShowsEnd(base: seq<Block>, parts: map<nat, seq<Update>>, blocks: seq<Block>, p: nat)
    requires Shows(base, parts, blocks) && Apart(parts) && p in parts
    ensures Apart(parts - {p}) && Shows(Apply(base, parts[p]), parts - {p}, blocks)
  {
    hide Touched, Apply, Holds;
    forall b | 0 <= b < |base| ensures Holds(Apply(base, parts[p]), parts - {p}, b, blocks[b]) {
      HoldsEnd(base, parts, p, b, blocks[b]);
    }
  }

  lemma HoldsEnd(base: seq<Block>, parts: map<nat, seq<Update>>, p: nat, b: nat, v: Block)
    requires Apart(parts) && p in parts && b < |base| && Holds(base, parts, b, v)
    ensures Holds(Apply(base, parts[p]), parts - {p}, b, v)
  {
    hide Touched, Apply;
    var base' := Apply(base, parts[p]);
    if b in Touched(parts[p]) {
      assert forall q :: q in parts - {p} ==> b !in Touched(parts[q]);
    } else {
      Untouched(base, parts[p], b);
      forall q | q in parts - {p} && b in Touched(parts[q]) ensures v == Apply(base', parts[q])[b] {
        Overwritten(base, base', parts[q], b);
        assert v == Apply(base, parts[q])[b];
      }
      if forall q :: q in parts - {p} ==> b !in Touched(parts[q]) {
        assert forall q :: q in parts ==> q == p || q in parts - {p};
      }
    }
  }

  /** What system calls see. Whoever has made updates is inside an operation. */
  ghost predicate Tracked(c: Config, first: seq<Block>, k: Track, t: State) {
    && Inv(c, t) && Apart(k.parts) && (forall p :: p in k.parts ==> p < |t.ops| && t.ops[p].Inside?)
    && Recoverable(c, t.disk) && |t.cache| == c.nblocks == |first|
    && Shows(After(first, k.done), k.parts, StoreOf(c, t).current)
  }

  lemma ShowsNext(first: seq<Block>, k: Track, blocks: seq<Block>, l: Label)
    requires Shows(After(first, k.done), k.parts, blocks) && Apart(k.parts) && NextTrack(k, l).Some?
    requires l.LogWrite? ==> l.b < |first|
    ensures
      var k' := NextTrack(k, l).value;
      Apart(k'.parts) && Shows(After(first, k'.done), k'.parts, if l.LogWrite? then blocks[l.b := l.v] else blocks)
  {
    hide Shows, Apart, Busy, After, Apply, Touched;
    if l.LogWrite? {
      ShowsSize(After(first, k.done), k.parts, blocks);
      ShowsWrite(After(first, k.done), k.parts, blocks, l.p, Update(l.b, l.v));
    } else if l.End? && l.p in k.parts {
      AfterNext(first, k.done, k.parts[l.p]);
      ShowsEnd(After(first, k.done), k.parts, blocks, l.p);
    }
  }

  lemma AfterNext(first: seq<Block>, txs: seq<seq<Update>>, tx: seq<Update>)
    ensures After(first, txs + [tx]) == Apply(After(first, txs), tx)
  {
    assert (txs + [tx])[..|txs|] == txs;
  }

  lemma ShowsSize(base: seq<Block>, parts: map<nat, seq<Update>>, blocks: seq<Block>)
    requires Shows(base, parts, blocks)
    ensures |blocks| == |base|
  {
  }

  lemma TrackedNext(c: Config, first: seq<Block>, k: Track, t: State, l: Label)
    requires Tracked(c, first, k, t) && Enabled(c, t, l) && NextTrack(k, l).Some?
    ensures Tracked(c, first, NextTrack(k, l).value, Step(c, t, l))
  {
    hide Inv, Durable, HomeOf, Shows, Apart, NextTrack, Step;
    InvShape(c, t);
    ShowsSize(After(first, k.done), k.parts, StoreOf(c, t).current);
    NotACrash(k, l);
    ShowsNext(first, k, StoreOf(c, t).current, l);
    NextStore(c, t, l, StoreOf(c, t).durable, StoreOf(c, t).current);
    forall p | p in NextTrack(k, l).value.parts ensures p < |Step(c, t, l).ops| && Step(c, t, l).ops[p].Inside? {
      StillInside(c, k, t, l, p);
    }
  }

  lemma NotACrash(k: Track, l: Label)
    requires NextTrack(k, l).Some?
    ensures !l.Crash?
  {
  }

  lemma StillInside(c: Config, k: Track, t: State, l: Label, p: nat)
    requires Inv(c, t) && Enabled(c, t, l) && NextTrack(k, l).Some? && p in NextTrack(k, l).value.parts
    requires forall q :: q in k.parts ==> q < |t.ops| && t.ops[q].Inside?
    ensures p < |Step(c, t, l).ops| && Step(c, t, l).ops[p].Inside?
  {
    hide NormalInv, CommitInv, RecoverInv, Clean, Recoverable, NextWrite, Outstanding;
  }

  /** In every state of every such run. */
  lemma {:induction false} RunTracked(c: Config, s: State, ls: seq<Label>, t: State)
    requires Reaches(c, s, ls, t) && Follow(ls).Some?
    ensures |s.disk| == c.nblocks && Tracked(c, HomeOf(c, s.disk), Follow(ls).value, t)
  {
    hide Tracked, Step, Enabled, NextTrack;
    if ls == [] {
      BootTracked(c, s);
    } else {
      var n := |ls| - 1;
      var u := Exec(c, s, ls[..n]).value;
      RunTracked(c, s, ls[..n], u);
      TrackedNext(c, HomeOf(c, s.disk), Follow(ls[..n]).value, u, ls[n]);
    }
  }

  lemma BootTracked(c: Config, s: State)
    requires Booted(c, s)
    ensures |s.disk| == c.nblocks && Tracked(c, HomeOf(c, s.disk), Track([], map[]), s)
  {
    hide Durable, HomeOf;
    BootStore(c, s);
    var home := HomeOf(c, s.disk);
    assert Shows(After(home, []), map[], home);
  }

  /** The operations that a crash now leaves. */
  ghost function Kept(c: Config, s: State, ls: seq<Label>): seq<seq<Update>>
    requires Exec(c, s, ls).Some? && Follow(ls).Some?
  {
    FollowPrefix(ls, LastCommit(c, s, ls));
    Follow(ls[..LastCommit(c, s, ls)]).value.done
  }

  /** A crash in any state of any such run leaves exactly the operations that had ended at the last commit: all of each
      of them, and nothing of any other. */
  lemma SharedCommits(c: Config, s: State, ls: seq<Label>, t: State)
    requires Reaches(c, s, ls, t) && Follow(ls).Some?
    ensures Inv(c, t) && |s.disk| == c.nblocks && Kept(c, s, ls) <= Follow(ls).value.done
    ensures Recoverable(c, t.disk) && Durable(c, t.disk) == After(HomeOf(c, s.disk), Kept(c, s, ls))
  {
    hide Inv, Durable, HomeOf, Exec, Follow;
    var j := LastCommit(c, s, ls);
    CrashAtomicity(c, s, ls, t);
    FollowPrefix(ls, j);
    var u := Exec(c, s, ls[..j]).value;
    RunTracked(c, s, ls[..j], u);
    RunTracked(c, s, ls, t);
    NobodyActive(c, HomeOf(c, s.disk), Follow(ls[..j]).value, u);
  }

  lemma NobodyActive(c: Config, first: seq<Block>, k: Track, t: State)
    requires Tracked(c, first, k, t) && Outstanding(t.ops) == 0
    ensures StoreOf(c, t).current == After(first, k.done)
  {
    var blocks, base := StoreOf(c, t).current, After(first, k.done);
    forall b | 0 <= b < |base| ensures blocks[b] == base[b] {
      assert Holds(base, k.parts, b, blocks[b]);
    }
  }
}
