/** The circular doubly linked list through which `kernel/bio.c` orders its buffers.  Buffers
    are numbered; the list head is one further node, numbered after all of them.  `next` and
    `prev` are the pointer fields of all nodes. */
module LruList {
  import opened Common
  import opened Counting

  /** The `i`-th node of the ring, counting from the head, which comes round again at the end. */
  function At(head: nat, order: seq<nat>, i: nat): nat
    requires i <= |order| + 1
  {
    if i == 0 || i == |order| + 1 then head else order[i - 1]
  }

  ghost predicate Linked(next: seq<nat>, prev: seq<nat>, head: nat, order: seq<nat>, i: nat)
    requires |next| == |prev| == head + 1 && i <= |order|
  {
    && At(head, order, i) <= head && At(head, order, i + 1) <= head
    && next[At(head, order, i)] == At(head, order, i + 1)
    && prev[At(head, order, i + 1)] == At(head, order, i)
  }

  /** The pointers form one ring that visits the buffers of `order`, once each. */
  ghost predicate IsRing(next: seq<nat>, prev: seq<nat>, head: nat, order: seq<nat>) {
    && |next| == |prev| == head + 1
    && (forall i | 0 <= i < |order| :: order[i] < head)
    && Distinct(order)
    && (forall i | 0 <= i <= |order| :: Linked(next, prev, head, order, i))
  }

  /** Distinct places in the ring hold distinct nodes. */
  lemma AtDistinct(next: seq<nat>, prev: seq<nat>, head: nat, order: seq<nat>, i: nat, j: nat)
    requires IsRing(next, prev, head, order)
    requires i <= |order| && j <= |order|
    ensures At(head, order, i) == At(head, order, j) <==> i == j
  {
  }

  lemma AtDistinctUp(next: seq<nat>, prev: seq<nat>, head: nat, order: seq<nat>, i: nat, j: nat)
    requires IsRing(next, prev, head, order)
    requires 1 <= i <= |order| + 1 && 1 <= j <= |order| + 1
    ensures At(head, order, i) == At(head, order, j) <==> i == j
  {
  }

  /** `b->next->prev = b->prev; b->prev->next = b->next` takes `b` out of the ring. */
  lemma UnlinkKeepsRing(next: seq<nat>, prev: seq<nat>, head: nat, order: seq<nat>, i: nat)
    requires IsRing(next, prev, head, order) && i < |order|
    ensures next[order[i]] <= head && prev[order[i]] <= head
    ensures
      var b := order[i];
      IsRing(next[prev[b] := next[b]], prev[next[b] := prev[b]], head, Without(order, i))
  {
    var b := order[i];
    assert Linked(next, prev, head, order, i);
    assert Linked(next, prev, head, order, i + 1);
    assert b == At(head, order, i + 1);
    var rest := Without(order, i);
    var next', prev' := next[prev[b] := next[b]], prev[next[b] := prev[b]];
    forall j | 0 <= j <= |rest| ensures Linked(next', prev', head, rest, j) {
      var k := if j <= i then j else j + 1;
      var k' := if j + 1 <= i then j + 1 else j + 2;
      assert At(head, rest, j) == At(head, order, k);
      assert At(head, rest, j + 1) == At(head, order, k');
      assert Linked(next, prev, head, order, k);
      assert Linked(next, prev, head, order, k' - 1);
      AtDistinct(next, prev, head, order, k, i);
      AtDistinctUp(next, prev, head, order, k', i + 2);
    }
  }

  /** `b->next = head.next; b->prev = &head; head.next->prev = b; head.next = b` puts `b` first. */
  lemma PushFrontKeepsRing(next: seq<nat>, prev: seq<nat>, head: nat, order: seq<nat>, b: nat)
    requires IsRing(next, prev, head, order)
    requires b < head && b !in order
    ensures next[head] <= head
    ensures IsRing(next[b := next[head]][head := b], prev[b := head][next[head] := b], head, [b] + order)
  {
    assert Linked(next, prev, head, order, 0);
    var order' := [b] + order;
    var next', prev' := next[b := next[head]][head := b], prev[b := head][next[head] := b];
    forall j | 0 <= j <= |order'| ensures Linked(next', prev', head, order', j) {
      if j >= 2 {
        assert At(head, order', j) == At(head, order, j - 1);
        assert At(head, order', j + 1) == At(head, order, j);
        assert Linked(next, prev, head, order, j - 1);
        AtDistinct(next, prev, head, order, j - 1, 0);
        AtDistinctUp(next, prev, head, order, j, 1);
      } else if j == 1 {
        assert At(head, order', 2) == At(head, order, 1) == next[head];
      }
    }
  }

  /** Every buffer below `head` is in an order of that many distinct buffers. */
  lemma OrderComplete(order: seq<nat>, head: nat, b: nat)
    requires |order| == head && b < head
    requires forall i | 0 <= i < |order| :: order[i] < head
    requires Distinct(order)
    ensures b in order
  {
    if b !in order {
      Pigeonhole(order, Below(head) - {b});
    }
  }
}
