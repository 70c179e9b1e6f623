/** Doubly linked rings through a head node, as `bio.c` keeps its buffers: nodes are numbers,
    `next` and `prev` the two pointers of each. */
module Ring {
  import opened Common

  /** The nodes met from the head back to it. */
  function Node(head: nat, s: seq<nat>, k: nat): (b: nat)
    requires k <= |s| + 1
  {
    if 0 < k <= |s| then s[k - 1] else head
  }

  /** The nodes of `s` and the head are different nodes. */
  ghost predicate Nodes(head: nat, size: nat, s: seq<nat>) {
    head < size && Distinct(s) && forall i :: 0 <= i < |s| ==> s[i] < size && s[i] != head
  }

  /** The `k`-th node and the one after it point at each other. */
  ghost predicate LinkAt(head: nat, next: seq<nat>, prev: seq<nat>, s: seq<nat>, k: nat)
    requires k <= |s| && |next| == |prev| && Nodes(head, |next|, s)
  {
    next[Node(head, s, k)] == Node(head, s, k + 1) && prev[Node(head, s, k + 1)] == Node(head, s, k)
  }

  /** Following `next` from the head meets the nodes of `s` in order, and `prev` is its inverse. */
  ghost predicate Linked(head: nat, next: seq<nat>, prev: seq<nat>, s: seq<nat>) {
    && |next| == |prev| && Nodes(head, |next|, s)
    && forall k: nat :: k <= |s| ==> LinkAt(head, next, prev, s, k)
  }

  /** Every node but the head is on the ring. */
  ghost predicate AllOn(n: nat, s: seq<nat>) {
    |s| == n && forall b: nat :: b < n ==> b in s
  }

  lemma WithoutNodes(head: nat, size: nat, s: seq<nat>, i: nat)
    requires Nodes(head, size, s) && i < |s|
    ensures Nodes(head, size, Without(s, i)) && s[i] !in Without(s, i)
  {
  }

  /** Two places on the ring are the same node only if they are the same place, but for the head. */
  lemma SameNode(head: nat, size: nat, s: seq<nat>, j: nat, k: nat)
    requires Nodes(head, size, s) && j <= |s| + 1 && k <= |s| + 1
    ensures Node(head, s, j) == Node(head, s, k) <==> j == k || ((j == 0 || j == |s| + 1) && (k == 0 || k == |s| + 1))
  {
  }

  lemma Neighbours(head: nat, next: seq<nat>, prev: seq<nat>, s: seq<nat>, i: nat)
    requires Linked(head, next, prev, s) && i < |s|
    ensures var b := s[i];
            && b < |next| && next[b] == Node(head, s, i + 2) < |prev| && prev[b] == Node(head, s, i) < |next|
            && next[b] != b && prev[b] != b
  {
    assert Node(head, s, i + 1) == s[i];
    assert LinkAt(head, next, prev, s, i) && LinkAt(head, next, prev, s, i + 1);
    SameNode(head, |next|, s, i + 1, i + 2);
    SameNode(head, |next|, s, i + 1, i);
  }

  /** `b->next->prev = b->prev; b->prev->next = b->next`. */
  lemma Unlink(head: nat, next: seq<nat>, prev: seq<nat>, s: seq<nat>, i: nat)
    requires Linked(head, next, prev, s) && i < |s|
    ensures var b := s[i];
            && b < |next| && next[b] < |prev| && prev[b] < |next| && next[b] != b && prev[b] != b
            && Linked(head, next[prev[b] := next[b]], prev[next[b] := prev[b]], Without(s, i))
            && b !in Without(s, i)
  {
    hide Node;
    var b := s[i];
    Neighbours(head, next, prev, s, i);
    WithoutNodes(head, |next|, s, i);
    var next', prev', r := next[prev[b] := next[b]], prev[next[b] := prev[b]], Without(s, i);
    forall k: nat | k <= |r|
      ensures LinkAt(head, next', prev', r, k)
    {
      UnlinkAt(head, next, prev, s, i, k);
    }
  }

  lemma UnlinkAt(head: nat, next: seq<nat>, prev: seq<nat>, s: seq<nat>, i: nat, k: nat)
    requires Linked(head, next, prev, s) && i < |s| && k < |s|
    requires Nodes(head, |next|, Without(s, i))
    ensures var b := s[i];
            && b < |next| && next[b] < |prev| && prev[b] < |next|
            && LinkAt(head, next[prev[b] := next[b]], prev[next[b] := prev[b]], Without(s, i), k)
  {
    Neighbours(head, next, prev, s, i);
    var j := if k <= i then k else k + 1;
    assert Node(head, Without(s, i), k) == Node(head, s, j);
    assert Node(head, Without(s, i), k + 1) == Node(head, s, if k + 1 <= i then k + 1 else k + 2);
    assert LinkAt(head, next, prev, s, j);
    SameNode(head, |next|, s, i, j);
    SameNode(head, |next|, s, i + 2, j + 1);
  }

  /** `b->next = head.next; b->prev = &head; head.next->prev = b; head.next = b`. */
  lemma PushFront(head: nat, next: seq<nat>, prev: seq<nat>, s: seq<nat>, b: nat)
    requires Linked(head, next, prev, s) && b < |next| && b != head && b !in s
    ensures next[head] < |prev|
    ensures Linked(head, next[b := next[head]][head := b], prev[b := head][next[head] := b], [b] + s)
  {
    assert LinkAt(head, next, prev, s, 0);
    var next', prev', r := next[b := next[head]][head := b], prev[b := head][next[head] := b], [b] + s;
    forall k: nat | k <= |r|
      ensures LinkAt(head, next', prev', r, k)
    {
      PushAt(head, next, prev, s, b, k);
    }
  }

  lemma PushAt(head: nat, next: seq<nat>, prev: seq<nat>, s: seq<nat>, b: nat, k: nat)
    requires Linked(head, next, prev, s) && b < |next| && b != head && b !in s && k <= |s| + 1
    ensures next[head] < |prev| && Nodes(head, |next|, [b] + s)
    ensures LinkAt(head, next[b := next[head]][head := b], prev[b := head][next[head] := b], [b] + s, k)
  {
    assert LinkAt(head, next, prev, s, 0);
    assert Node(head, [b] + s, k + 1) == if k == 0 then b else Node(head, s, k);
    assert k > 0 ==> Node(head, [b] + s, k) == if k == 1 then b else Node(head, s, k - 1);
    if k >= 2 {
      assert LinkAt(head, next, prev, s, k - 1);
      SameNode(head, |next|, s, 1, k);
    }
  }

  // ---------------------------------------------------------------- walking the ring

  lemma FollowNext(n: nat, next: seq<nat>, prev: seq<nat>, s: seq<nat>, i: nat)
    requires Linked(n, next, prev, s) && i <= |s|
    ensures Node(n, s, i) < |next| && next[Node(n, s, i)] == Node(n, s, i + 1)
  {
    assert LinkAt(n, next, prev, s, i);
  }

  lemma FollowPrev(n: nat, next: seq<nat>, prev: seq<nat>, s: seq<nat>, i: nat)
    requires Linked(n, next, prev, s) && 0 < i <= |s| + 1
    ensures Node(n, s, i) < |prev| && prev[Node(n, s, i)] == Node(n, s, i - 1)
  {
    assert LinkAt(n, next, prev, s, i - 1);
  }

  /** The walk is on a node of `s`, or back at the head. */
  lemma OnRing(n: nat, next: seq<nat>, prev: seq<nat>, s: seq<nat>, i: nat)
    requires Linked(n, next, prev, s) && |next| == n + 1 && i <= |s| + 1
    ensures if Node(n, s, i) == n then i == 0 || i == |s| + 1 else 0 < i <= |s| && Node(n, s, i) == s[i - 1] < n
  {
  }

  lemma RingSizes(n: nat, next: seq<nat>, prev: seq<nat>, s: seq<nat>)
    requires Linked(n, next, prev, s) && AllOn(n, s)
    ensures |s| == n && |prev| == |next|
  {
  }

  lemma IsOn(n: nat, next: seq<nat>, prev: seq<nat>, ring: seq<nat>, b: nat)
    requires AllOn(n, ring) && Linked(n, next, prev, ring) && b < n
    ensures b in ring && |ring| == n && Distinct(ring)
  {
  }
}
