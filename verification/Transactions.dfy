/** A transaction as the blocks that one file-system operation passes to `log_write`, in order. */
module Transactions {
  import opened Words
  import opened LogProtocol

  /** One call of `log_write`: block `b`, whose buffer holds `v`. */
  datatype Update = Update(b: nat, v: Block)

  function Apply(blocks: seq<Block>, tx: seq<Update>): (r: seq<Block>)
    ensures |r| == |blocks|
  {
    if tx == [] then blocks
    else
      var n := |tx| - 1;
      var r := Apply(blocks, tx[..n]);
      if tx[n].b < |r| then r[tx[n].b := tx[n].v] else r
  }

  /** The distinct blocks of a transaction in the order in which they first appear. */
  function Touched(tx: seq<Update>): (r: seq<nat>) {
    if tx == [] then []
    else
      var n := |tx| - 1;
      var r := Touched(tx[..n]);
      if tx[n].b in r then r else r + [tx[n].b]
  }

  lemma {:induction false} TouchedPrefix(tx: seq<Update>, k: nat)
    requires k <= |tx|
    ensures |Touched(tx[..k])| <= |Touched(tx)|
  {
    if k < |tx| {
      var n := |tx| - 1;
      TouchedPrefix(tx[..n], k);
      assert tx[..n][..k] == tx[..k];
    } else {
      assert tx[..k] == tx;
    }
  }

  lemma {:induction false} TouchedExactly(tx: seq<Update>, s: set<nat>)
    requires forall k :: 0 <= k < |tx| ==> tx[k].b in s
    ensures Distinct(Touched(tx)) && forall i :: 0 <= i < |Touched(tx)| ==> Touched(tx)[i] in s
  {
    if tx != [] {
      TouchedExactly(tx[..|tx| - 1], s);
    }
  }

  lemma {:induction false} DistinctFits(r: seq<nat>, s: set<nat>)
    requires Distinct(r) && forall i :: 0 <= i < |r| ==> r[i] in s
    ensures |r| <= |s|
  {
    if r != [] {
      var n := |r| - 1;
      DistinctFits(r[..n], s - {r[n]});
    }
  }

  /** The state after the transactions `txs`, one after the other. */
  function After(first: seq<Block>, txs: seq<seq<Update>>): (r: seq<Block>)
    ensures |r| == |first|
  {
    if txs == [] then first else Apply(After(first, txs[..|txs| - 1]), txs[|txs| - 1])
  }
}
