/** The circular doubly linked list of buffers, in order of last use. Node `n` is the list head. */
module BufList {
  /** Nodes in list order: the head, the buffers of `order`, the head again. */
  ghost function Node(order: seq<nat>, n: nat, k: int): nat {
    if 0 <= k < |order| then order[k] else n
  }

  /** Following `next` from the head visits the buffers in order, following `prev` visits them backwards. */
  ghost predicate Linked(prev: seq<nat>, next: seq<nat>, order: seq<nat>, n: nat) {
    && |prev| == n + 1 && |next| == n + 1 && Distinct(order, n)
    && (forall k {:trigger Hop(prev, next, order, n, k)} :: 0 <= k <= |order| ==> Hop(prev, next, order, n, k))
  }

  ghost predicate Distinct(order: seq<nat>, n: nat) {
    (forall k :: 0 <= k < |order| ==> order[k] < n) && (forall j, k :: 0 <= j < k < |order| ==> order[j] != order[k])
  }

  /** The link between positions `k - 1` and `k`. */
  ghost predicate Hop(prev: seq<nat>, next: seq<nat>, order: seq<nat>, n: nat, k: nat) {
    && Node(order, n, k - 1) < |next| && Node(order, n, k) < |prev|
    && next[Node(order, n, k - 1)] == Node(order, n, k) && prev[Node(order, n, k)] == Node(order, n, k - 1)
  }

  /** Every buffer is in the list. */
  ghost predicate Complete(order: seq<nat>, n: nat) {
    forall b :: 0 <= b < n ==> b in order
  }

  lemma DistinctWithout(a: seq<nat>, b: nat, c: seq<nat>, n: nat)
    requires Distinct(a + [b] + c, n)
    ensures Distinct(a + c, n) && b !in a + c
  {
    var all, order, m := a + [b] + c, a + c, |a|;
    forall k | 0 <= k < |order| ensures order[k] < n && order[k] != b {
      assert all[m] == b && order[k] == all[if k < m then k else k + 1];
    }
    forall j, k | 0 <= j < k < |order| ensures order[j] != order[k] {
      assert order[j] == all[if j < m then j else j + 1] && order[k] == all[if k < m then k else k + 1];
    }
  }

  /** Taking buffer `b` out of the list. */
  lemma Unlink(prev: seq<nat>, next: seq<nat>, a: seq<nat>, b: nat, c: seq<nat>, n: nat)
    requires Linked(prev, next, a + [b] + c, n)
    ensures b < n && next[b] <= n && prev[b] <= n
    ensures Linked(prev[next[b] := prev[b]], next[prev[b] := next[b]], a + c, n)
  {
    var all, order := a + [b] + c, a + c;
    var m := |a|;
    assert all[m] == b;
    assert Hop(prev, next, all, n, m) && Hop(prev, next, all, n, m + 1);
    var before, after := Node(all, n, m - 1), Node(all, n, m + 1);
    assert prev[b] == before && next[b] == after;
    assert forall k :: 0 <= k < |order| ==> order[k] == if k < m then all[k] else all[k + 1];
    var prev', next' := prev[after := before], next[before := after];
    DistinctWithout(a, b, c, n);
    forall k | 0 <= k <= |order| ensures Hop(prev', next', order, n, k) {
      if k < m {
        assert Hop(prev, next, all, n, k);
      } else if k > m {
        assert Hop(prev, next, all, n, k + 1);
      }
    }
  }

  /** Putting a buffer at the front. */
  lemma PushFront(prev: seq<nat>, next: seq<nat>, order: seq<nat>, b: nat, n: nat)
    requires Linked(prev, next, order, n) && b < n && b !in order
    ensures next[n] <= n
    ensures Linked(prev[b := n][next[n] := b], next[b := next[n]][n := b], [b] + order, n)
  {
    var all := [b] + order;
    assert Hop(prev, next, order, n, 0);
    var first := next[n];
    var prev', next' := prev[b := n][first := b], next[b := first][n := b];
    forall k | 0 <= k <= |all| ensures Hop(prev', next', all, n, k) {
      if k > 1 {
        assert Hop(prev, next, order, n, k - 1);
      } else if k == 1 {
        assert Node(all, n, 1) == first;
      }
    }
  }
}
