/** Doubly linked rings of numbered nodes around a head, as in the buffer cache. */
module Ring {

  /** Element `k` of the ring; the head stands before the first and after the last. */
  function El(order: seq<int>, head: int, k: int): int {
    if 0 <= k < |order| then order[k] else head
  }

  ghost predicate Linked(next: seq<int>, prev: seq<int>, order: seq<int>, head: int, k: int)
    requires 0 <= head && |next| == |prev| == head + 1
  {
    var a, b := El(order, head, k - 1), El(order, head, k);
    0 <= a <= head && 0 <= b <= head && next[a] == b && prev[b] == a
  }

  /** The nodes 0 .. head - 1 in `order`, each exactly once, are the ring. */
  ghost predicate IsRing(next: seq<int>, prev: seq<int>, order: seq<int>, head: int) {
    && 0 <= head && |next| == |prev| == head + 1
    && (forall k :: 0 <= k < |order| ==> 0 <= order[k] < head)
    && (forall j, k :: 0 <= j < k < |order| ==> order[j] != order[k])
    && (forall k :: 0 <= k <= |order| ==> Linked(next, prev, order, head, k))
  }

  lemma Neighbours(next: seq<int>, prev: seq<int>, order: seq<int>, head: int, k: int)
    requires IsRing(next, prev, order, head) && 0 <= k < |order|
    ensures next[order[k]] == El(order, head, k + 1) && prev[order[k]] == El(order, head, k - 1)
  {
    assert Linked(next, prev, order, head, k) && Linked(next, prev, order, head, k + 1);
  }

  /** Node `order[k]` is bypassed. */
  lemma Removed(next: seq<int>, prev: seq<int>, order: seq<int>, head: int, k: int)
    requires IsRing(next, prev, order, head) && 0 <= k < |order|
    ensures var n, p := next[order[k]], prev[order[k]];
            && 0 <= n <= head && 0 <= p <= head
            && IsRing(next[p := n], prev[n := p], order[..k] + order[k + 1..], head)
  {
    Neighbours(next, prev, order, head, k);
    var n, p := next[order[k]], prev[order[k]];
    var left := order[..k] + order[k + 1..];
    assert Linked(next, prev, order, head, k) && Linked(next, prev, order, head, k + 1);
    var nexts, prevs := next[p := n], prev[n := p];
    forall j | 0 <= j <= |left| ensures Linked(nexts, prevs, left, head, j) {
      assert Linked(next, prev, order, head, j) && Linked(next, prev, order, head, j + 1);
    }
  }

  /** Node `b` is put behind the head. */
  lemma Inserted(next: seq<int>, prev: seq<int>, order: seq<int>, head: int, b: int)
    requires IsRing(next, prev, order, head) && 0 <= b < head && b !in order
    ensures var f := next[head];
            && 0 <= f <= head
            && IsRing(next[b := f][head := b], prev[b := head][f := b], [b] + order, head)
  {
    var f := next[head];
    var more := [b] + order;
    assert Linked(next, prev, order, head, 0);
    assert f == El(order, head, 0);
    var nexts, prevs := next[b := f][head := b], prev[b := head][f := b];
    forall j | 0 <= j <= |more| ensures Linked(nexts, prevs, more, head, j) {
      if j > 0 { assert Linked(next, prev, order, head, j - 1); }
    }
  }
}
