/** A pipe (kernel/pipe.c). Each method is what one reader, writer or closer does between two points where it does not
    hold the pipe's lock; any interleaving of them is a run. */
module PipeRing {
  import opened Words

  const PIPESIZE := 512

  datatype Outcome = Returned | Sleeps | Failed

  /** Entry of the ring for the byte that is `k`-th after `count` bytes. */
  lemma RingIndex(count: nat, k: nat)
    ensures (count % WORD + k) % PIPESIZE == (count + k) % PIPESIZE
  {
    var q := count / WORD;
    assert count == q * WORD + count % WORD;
    assert count + k == (count % WORD + k) + (q * (WORD / PIPESIZE)) * PIPESIZE;
    ModPlus(count % WORD + k, q * (WORD / PIPESIZE));
  }

  lemma ModPlus(a: nat, m: nat)
    ensures (a + m * PIPESIZE) % PIPESIZE == a % PIPESIZE
  {
  }

  lemma NextCount(count: nat)
    ensures (count % WORD + 1) % WORD == (count + 1) % WORD
  {
  }

  /** The 32-bit counters tell empty and full apart, whatever their true values. */
  lemma Counters(nin: nat, nout: nat)
    requires nout <= nin <= nout + PIPESIZE
    ensures nin % WORD == nout % WORD <==> nin == nout
    ensures nin % WORD == (nout % WORD + PIPESIZE) % WORD <==> nin == nout + PIPESIZE
  {
    var d := nin - nout;
    var q := nout / WORD;
    assert nout == q * WORD + nout % WORD;
    assert nin == q * WORD + (nout % WORD + d);
    if nout % WORD + d >= WORD {
      assert nin % WORD == nout % WORD + d - WORD;
    } else {
      assert nin % WORD == nout % WORD + d;
    }
  }

  lemma OtherSlot(nout: nat, nin: nat, k: nat)
    requires nout <= k < nin < nout + PIPESIZE
    ensures k % PIPESIZE != nin % PIPESIZE
  {
  }

  class Pipe {
    const data: array<byte>
    var nread: nat
    var nwrite: nat
    var readopen: bool
    var writeopen: bool
    /** All bytes stored so far, and how many of them have been taken out. */
    ghost var stored: seq<byte>
    ghost var taken: nat

    ghost predicate Valid()
      reads this, data
    {
      && data.Length == PIPESIZE && taken <= |stored| <= taken + PIPESIZE
      && nwrite == |stored| % WORD && nread == taken % WORD
      && forall k :: taken <= k < |stored| ==> data[k % PIPESIZE] == stored[k]
    }

    /** pipealloc. */
    constructor ()
      ensures Valid() && fresh(data) && stored == [] && taken == 0 && readopen && writeopen
    {
      data := new byte[PIPESIZE](_ => 0);
      nread, nwrite, readopen, writeopen := 0, 0, true, true;
      stored, taken := [], 0;
    }

    /** One byte goes into the ring. */
    method Put(ch: byte)
      requires Valid() && |stored| < taken + PIPESIZE
      modifies this`nwrite, this`stored, data
      ensures Valid() && stored == old(stored) + [ch]
    {
      RingIndex(|stored|, 0);
      NextCount(|stored|);
      forall k | taken <= k < |stored| ensures k % PIPESIZE != nwrite % PIPESIZE {
        OtherSlot(taken, |stored|, k);
      }
      data[nwrite % PIPESIZE] := ch;
      nwrite := (nwrite + 1) % WORD;
      stored := stored + [ch];
    }

    /** pipewrite from byte `i` of `src` on, until it returns or sleeps; the copy of byte `bad` from the user fails. */
    method Write(src: seq<byte>, start: nat, killed: bool, bad: int) returns (i: nat, r: Outcome)
      requires Valid() && start <= |src|
      modifies this`nwrite, this`stored, data
      ensures Valid() && start <= i <= |src| && stored == old(stored) + src[start..i]
      ensures r == Failed <==> start < |src| && (!readopen || killed)
      ensures r == Failed ==> i == start
      ensures start <= bad ==> i <= bad
      ensures r == Returned ==> i == |src| || (i == bad && |stored| < taken + PIPESIZE)
      ensures r == Sleeps ==> |stored| == taken + PIPESIZE && i < |src|
    {
      i := start;
      while i < |src|
        invariant start <= i <= |src| && Valid() && stored == old(stored) + src[start..i]
        invariant (i > start ==> readopen && !killed) && (start <= bad ==> i <= bad)
        decreases |src| - i
      {
        if !readopen || killed {
          return i, Failed;
        }
        Counters(|stored|, taken);
        if nwrite == (nread + PIPESIZE) % WORD {
          return i, Sleeps;
        }
        if i == bad {
          break;
        }
        var ch := src[i];
        Put(ch);
        i := i + 1;
      }
      r := Returned;
    }

    /** piperead of `n` bytes: the bytes delivered. The copy of byte `bad` to the user fails, and that byte is lost. */
    method Read(n: nat, killed: bool, bad: int) returns (r: Outcome, got: seq<byte>)
      requires Valid()
      modifies this`nread, this`taken
      ensures Valid() && taken >= old(taken)
      ensures r == Sleeps <==> !killed && old(taken) == |stored| && writeopen
      ensures r == Failed <==> killed && old(taken) == |stored| && writeopen
      ensures r != Returned ==> taken == old(taken) && got == []
      ensures r == Returned ==>
                |got| <= n && old(taken) + |got| <= |stored| && got == stored[old(taken)..old(taken) + |got|]
      ensures r == Returned ==>
                taken == old(taken) + |got| + if |got| == bad && bad < n && old(taken) + |got| < |stored| then 1 else 0
      ensures 0 <= bad ==> |got| <= bad
      ensures r == Returned && |got| < n ==> |got| == bad || taken == |stored|
      ensures r == Returned && got == [] && n > 0 && bad != 0 ==> !writeopen && taken == |stored|
    {
      Counters(|stored|, taken);
      if nread == nwrite && writeopen {
        return if killed then Failed else Sleeps, [];
      }
      got := [];
      while |got| < n
        invariant Valid() && taken == old(taken) + |got| && |got| <= n && got == stored[old(taken)..taken]
        invariant bad < 0 || |got| <= bad || bad >= n
        decreases n - |got|
      {
        Counters(|stored|, taken);
        if nread == nwrite {
          break;
        }
        RingIndex(taken, 0);
        NextCount(taken);
        var ch := data[nread % PIPESIZE];
        nread := (nread + 1) % WORD;
        taken := taken + 1;
        if |got| == bad {
          return Returned, got;
        }
        got := got + [ch];
      }
      r := Returned;
    }

    /** pipeclose. The pipe is freed when both ends are closed. */
    method Close(writable: bool) returns (freed: bool)
      requires Valid()
      modifies this`readopen, this`writeopen
      ensures Valid() && writeopen == (old(writeopen) && !writable) && readopen == (old(readopen) && writable)
      ensures freed <==> !readopen && !writeopen
    {
      if writable {
        writeopen := false;
      } else {
        readopen := false;
      }
      freed := !readopen && !writeopen;
    }
  }
}
