/** The two halves of `free`: merging with the block above and linking in or merging with the
    block below; and what `malloc` takes out. */
module FreeSteps {
  import opened Common
  import opened FreeList

  // ---------------------------------------------------------------- finding the place

  /** The last element of the list below `bp`. */
  ghost function Before(fl: seq<nat>, bp: nat): (k: nat)
    requires |fl| >= 1 && fl[0] < bp
    ensures k < |fl| && fl[k] < bp && (k + 1 < |fl| ==> bp <= fl[k + 1])
  {
    if |fl| == 1 || bp <= fl[1] then 0 else Before(fl[1..], bp) + 1
  }

  /** The tests that end the search of `free`. */
  predicate StopsAt(p: nat, next: nat, bp: nat) {
    (bp > p && bp < next) || (p >= next && (bp > p || bp < next))
  }

  lemma StopIff(base: nat, fl: seq<nat>, size: map<nat, nat>, bp: nat, k: nat)
    requires Shape(base, fl, size) && bp > base && bp !in fl && k < |fl|
    ensures StopsAt(fl[k], Succ(fl, k), bp) <==> k == Before(fl, bp)
  {
    var x := Before(fl, bp);
    assert k < x ==> fl[k + 1] <= fl[x];
    assert k > x ==> fl[x + 1] <= fl[k];
    assert x + 1 < |fl| ==> fl[x + 1] in fl;
  }

  // ---------------------------------------------------------------- the block above

  lemma WithoutSorted(fl: seq<nat>, i: nat)
    requires Sorted(fl) && i < |fl|
    ensures Sorted(Without(fl, i)) && forall h :: h in Without(fl, i) <==> h in fl && h != fl[i]
  {
    forall h
      ensures h in Without(fl, i) <==> h in fl && h != fl[i]
    {
      if h in fl && h != fl[i] {
        var k :| 0 <= k < |fl| && fl[k] == h;
        assert Without(fl, i)[if k < i then k else k - 1] == h;
      }
    }
  }

  /** Nothing free touches `bp` from above. */
  ghost predicate RoomAbove(fl: seq<nat>, size: map<nat, nat>, x: nat, bp: nat)
    requires x < |fl|
  {
    bp in size && fl[x] < bp && (x + 1 < |fl| ==> bp + size[bp] < fl[x + 1])
  }

  /** `bp` is a live block whose place is after the `x`-th free one. */
  ghost predicate Placed(base: nat, fl: seq<nat>, live: map<nat, nat>, all: map<nat, nat>, size: map<nat, nat>,
                         heap: set<nat>, x: nat, bp: nat) {
    && Shape(base, fl, size) && Blocks(base, fl, live, all, size, heap) && bp in live
    && x < |fl| && fl[x] < bp && (x + 1 < |fl| ==> bp < fl[x + 1])
  }

  lemma NextFacts(base: nat, fl: seq<nat>, live: map<nat, nat>, all: map<nat, nat>, size: map<nat, nat>,
                  heap: set<nat>, x: nat, bp: nat)
    requires Placed(base, fl, live, all, size, heap, x, bp)
    ensures bp in live && bp in size && bp in all && bp > base && size[bp] >= 1 && all[bp] == size[bp] == live[bp]
    ensures fl[x] > 0
    ensures x + 1 < |fl| ==> fl[x + 1] in all && bp + size[bp] <= fl[x + 1]
    ensures x + 1 >= |fl| ==> bp + size[bp] != Succ(fl, x)
    ensures x > 0 ==> fl[x] in all && fl[x] + size[fl[x]] <= bp
    ensures x == 0 ==> fl[x] + size[fl[x]] < bp
    ensures forall k: nat :: k < |fl| ==> fl[k] in size
  {
    forall k: nat | k < |fl|
      ensures fl[k] in size && (k > 0 ==> fl[k] in all)
    {
      assert fl[k] in fl;
    }
  }

  lemma MergeAbove(base: nat, fl: seq<nat>, ptr: map<nat, nat>, live: map<nat, nat>, all: map<nat, nat>,
                   size: map<nat, nat>, heap: set<nat>, x: nat, bp: nat, next: nat)
    requires Placed(base, fl, live, all, size, heap, x, bp) && Links(fl, ptr)
    requires next == Succ(fl, x) && bp in size && bp + size[bp] == next
    ensures x + 1 < |fl| && next in all && bp in all && next in ptr
    ensures var n := size[bp] + size[next];
            && Placed(base, Without(fl, x + 1), live[bp := n], Merge(all, bp, next), size[bp := n], heap, x, bp)
            && LinksBut(Without(fl, x + 1), ptr[bp := ptr[next]], x, bp)
            && RoomAbove(Without(fl, x + 1), size[bp := n], x, bp)
  {
    hide Links, LinksBut, GapAt, Sorted, Apart, Covers, Without, Merge;
    NextFacts(base, fl, live, all, size, heap, x, bp);
    var n := size[bp] + size[next];
    AboveList(base, fl, ptr, size, size[bp := n], ptr[bp := PtrOf(fl, ptr, x + 1)], x, bp, next);
    AboveBlocks(base, fl, live, all, size, heap, x, bp, next, n);
  }

  ghost function PtrOf(fl: seq<nat>, ptr: map<nat, nat>, k: nat): (a: nat)
    requires k < |fl| && Links(fl, ptr)
    ensures fl[k] in ptr && a == ptr[fl[k]] == Succ(fl, k)
  {
    assert LinkAt(fl, ptr, k);
    ptr[fl[k]]
  }

  /** The list without the block that was merged away. */
  lemma AboveList(base: nat, fl: seq<nat>, ptr: map<nat, nat>, size: map<nat, nat>, size': map<nat, nat>,
                  ptr': map<nat, nat>,
                  x: nat, bp: nat, next: nat)
    requires Shape(base, fl, size) && Links(fl, ptr) && x + 1 < |fl| && next == fl[x + 1] && bp !in fl
    requires fl[x] < bp < next
    requires next in ptr && ptr' == ptr[bp := ptr[next]] && bp in size && next in size && bp + size[bp] == next
    requires size' == size[bp := size[bp] + size[next]]
    ensures Shape(base, Without(fl, x + 1), size') && LinksBut(Without(fl, x + 1), ptr', x, bp)
    ensures RoomAbove(Without(fl, x + 1), size', x, bp) && (x + 2 < |fl| ==> bp < Without(fl, x + 1)[x + 1])
  {
    var fl' := Without(fl, x + 1);
    assert Sorted(fl') by { WithoutSorted(fl, x + 1); }
    assert fl'[0] == fl[0] && fl[0] in fl;
    assert LinkAt(fl, ptr, x + 1);
    assert x + 2 < |fl| ==> GapAt(fl, size, x + 1);
    forall k: nat | k + 1 < |fl'|
      ensures GapAt(fl', size', k)
    {
      RemovedGap(fl, size, size', x, bp, k);
    }
    forall k: nat | k < |fl'| && k != x
      ensures LinkAt(fl', ptr', k)
    {
      RemovedLink(fl, ptr, ptr', x, bp, k);
    }
  }

  lemma RemovedGap(fl: seq<nat>, size: map<nat, nat>, size': map<nat, nat>, x: nat, bp: nat, k: nat)
    requires Sorted(fl) && x + 1 < |fl| && k + 2 < |fl| && bp !in fl
    requires (forall k: nat :: k + 1 < |fl| ==> GapAt(fl, size, k))
    requires forall h :: h in size && h != bp ==> h in size' && size'[h] == size[h]
    ensures GapAt(Without(fl, x + 1), size', k)
  {
    var j := if k <= x then k else k + 1;
    assert GapAt(fl, size, j);
    assert fl[j] in fl;
  }

  lemma RemovedLink(fl: seq<nat>, ptr: map<nat, nat>, ptr': map<nat, nat>, x: nat, bp: nat, k: nat)
    requires Links(fl, ptr) && x + 1 < |fl| && k + 1 < |fl| && k != x && bp !in fl
    requires forall h :: h in ptr && h != bp ==> h in ptr' && ptr'[h] == ptr[h]
    ensures LinkAt(Without(fl, x + 1), ptr', k)
  {
    var j := if k <= x then k else k + 1;
    assert LinkAt(fl, ptr, j);
    assert fl[j] in fl;
  }

  lemma AboveBlocks(base: nat, fl: seq<nat>, live: map<nat, nat>, all: map<nat, nat>, size: map<nat, nat>,
                    heap: set<nat>, x: nat, bp: nat, next: nat, n: nat)
    requires Blocks(base, fl, live, all, size, heap) && Sorted(fl) && x + 1 < |fl| && next == fl[x + 1] && fl[0] == base
    requires bp in live && bp in all && next in all && bp + size[bp] == next && n == size[bp] + size[next]
    ensures Blocks(base, Without(fl, x + 1), live[bp := n], Merge(all, bp, next), size[bp := n], heap)
  {
    hide Apart, Covers, Sorted, Without;
    WithoutSorted(fl, x + 1);
    MergeKeeps(all, bp, next, heap);
  }

  lemma NotAbove(base: nat, fl: seq<nat>, ptr: map<nat, nat>, live: map<nat, nat>, all: map<nat, nat>,
                 size: map<nat, nat>, heap: set<nat>, x: nat, bp: nat, next: nat)
    requires Placed(base, fl, live, all, size, heap, x, bp) && Links(fl, ptr)
    requires next == Succ(fl, x) && bp in size && bp + size[bp] != next
    ensures LinksBut(fl, ptr[bp := next], x, bp) && RoomAbove(fl, size, x, bp)
  {
    NextFacts(base, fl, live, all, size, heap, x, bp);
    var ptr' := ptr[bp := next];
    forall k: nat | k < |fl| && k != x
      ensures LinkAt(fl, ptr', k)
    {
      assert LinkAt(fl, ptr, k);
      assert fl[k] in fl;
    }
  }

  // ---------------------------------------------------------------- the block below

  lemma MergeBelow(base: nat, fl: seq<nat>, ptr: map<nat, nat>, live: map<nat, nat>, all: map<nat, nat>,
                   size: map<nat, nat>, heap: set<nat>, x: nat, bp: nat, p: nat)
    requires Placed(base, fl, live, all, size, heap, x, bp) && LinksBut(fl, ptr, x, bp) && RoomAbove(fl, size, x, bp)
    requires p == fl[x] && p in size && p + size[p] == bp
    ensures p in all && bp in all
    ensures var size' := size[p := size[p] + size[bp]];
            && Shape(base, fl, size') && Links(fl, ptr[p := ptr[bp]])
            && Blocks(base, fl, live - {bp}, Merge(all, p, bp), size', heap)
  {
    hide Links, LinksBut, GapAt, Sorted, Apart, Covers, Merge;
    NextFacts(base, fl, live, all, size, heap, x, bp);
    MergedList(base, fl, ptr, size, x, bp, p);
    MergedBlocks(base, fl, live, all, size, heap, bp, p);
  }

  /** The same list, with a larger block on it. */
  lemma MergedList(base: nat, fl: seq<nat>, ptr: map<nat, nat>, size: map<nat, nat>, x: nat, bp: nat, p: nat)
    requires Shape(base, fl, size) && LinksBut(fl, ptr, x, bp) && RoomAbove(fl, size, x, bp)
    requires p == fl[x] && p in size && p + size[p] == bp && bp in size
    ensures Shape(base, fl, size[p := size[p] + size[bp]]) && Links(fl, ptr[p := ptr[bp]])
  {
    var size' := size[p := size[p] + size[bp]];
    forall k: nat | k + 1 < |fl|
      ensures GapAt(fl, size', k)
    {
      assert GapAt(fl, size, k);
    }
    var ptr' := ptr[p := ptr[bp]];
    forall k: nat | k < |fl|
      ensures LinkAt(fl, ptr', k)
    {
      assert k != x ==> LinkAt(fl, ptr, k) && fl[k] != fl[x];
    }
  }

  lemma MergedBlocks(base: nat, fl: seq<nat>, live: map<nat, nat>, all: map<nat, nat>, size: map<nat, nat>,
                     heap: set<nat>, bp: nat, p: nat)
    requires Blocks(base, fl, live, all, size, heap) && p in fl && p in all && bp in live && p + size[p] == bp
    ensures bp in all
    ensures Blocks(base, fl, live - {bp}, Merge(all, p, bp), size[p := size[p] + size[bp]], heap)
  {
    hide Apart, Covers;
    MergeKeeps(all, p, bp, heap);
  }

  function Inserted(fl: seq<nat>, x: nat, bp: nat): (r: seq<nat>)
    requires x < |fl|
    ensures |r| == |fl| + 1
    ensures forall k :: 0 <= k < |r| ==> r[k] == if k <= x then fl[k] else if k == x + 1 then bp else fl[k - 1]
  {
    fl[..x + 1] + [bp] + fl[x + 1..]
  }

  lemma InsertedSorted(fl: seq<nat>, x: nat, bp: nat)
    requires Sorted(fl) && x < |fl| && fl[x] < bp && (x + 1 < |fl| ==> bp < fl[x + 1])
    ensures Sorted(Inserted(fl, x, bp)) && forall h :: h in Inserted(fl, x, bp) <==> h in fl || h == bp
  {
    var r := Inserted(fl, x, bp);
    forall h
      ensures h in r <==> h in fl || h == bp
    {
      if h in fl {
        var k :| 0 <= k < |fl| && fl[k] == h;
        assert r[if k <= x then k else k + 1] == h;
      }
      assert r[x + 1] == bp;
    }
    forall i, j | 0 <= i < j < |r|
      ensures r[i] < r[j]
    {
    }
  }

  lemma NotBelow(base: nat, fl: seq<nat>, ptr: map<nat, nat>, live: map<nat, nat>, all: map<nat, nat>,
                 size: map<nat, nat>, heap: set<nat>, x: nat, bp: nat, p: nat)
    requires Placed(base, fl, live, all, size, heap, x, bp) && LinksBut(fl, ptr, x, bp) && RoomAbove(fl, size, x, bp)
    requires p == fl[x] && p in size && p + size[p] != bp
    ensures var fl' := Inserted(fl, x, bp);
            Shape(base, fl', size) && Links(fl', ptr[p := bp]) && Blocks(base, fl', live - {bp}, all, size, heap)
  {
    hide Links, LinksBut, GapAt, Sorted, Apart, Covers, Inserted;
    NextFacts(base, fl, live, all, size, heap, x, bp);
    BelowList(base, fl, ptr, size, x, bp, ptr[p := bp]);
    BelowBlocks(base, fl, live, all, size, heap, x, bp);
  }

  lemma BelowList(base: nat, fl: seq<nat>, ptr: map<nat, nat>, size: map<nat, nat>, x: nat, bp: nat,
                  ptr': map<nat, nat>)
    requires Shape(base, fl, size) && LinksBut(fl, ptr, x, bp) && RoomAbove(fl, size, x, bp) && fl[x] in size
    requires fl[x] + size[fl[x]] < bp && ptr' == ptr[fl[x] := bp]
    ensures Shape(base, Inserted(fl, x, bp), size) && Links(Inserted(fl, x, bp), ptr')
  {
    var fl' := Inserted(fl, x, bp);
    InsertedSorted(fl, x, bp);
    forall k: nat | k + 1 < |fl'|
      ensures GapAt(fl', size, k)
    {
      if k < x { assert GapAt(fl, size, k); }
      if k > x + 1 { assert GapAt(fl, size, k - 1); }
    }
    forall k: nat | k < |fl'|
      ensures LinkAt(fl', ptr', k)
    {
      InsertedLink(fl, ptr, x, bp, k);
    }
  }

  lemma BelowBlocks(base: nat, fl: seq<nat>, live: map<nat, nat>, all: map<nat, nat>, size: map<nat, nat>,
                    heap: set<nat>, x: nat, bp: nat)
    requires Blocks(base, fl, live, all, size, heap) && Sorted(fl) && bp in live
    requires x < |fl| && fl[x] < bp && (x + 1 < |fl| ==> bp < fl[x + 1])
    ensures Blocks(base, Inserted(fl, x, bp), live - {bp}, all, size, heap)
  {
    hide Apart, Covers;
    InsertedSorted(fl, x, bp);
  }

  lemma InsertedLink(fl: seq<nat>, ptr: map<nat, nat>, x: nat, bp: nat, k: nat)
    requires Sorted(fl) && LinksBut(fl, ptr, x, bp) && fl[x] < bp && k <= |fl|
    ensures LinkAt(Inserted(fl, x, bp), ptr[fl[x] := bp], k)
  {
    if k < x { assert LinkAt(fl, ptr, k); }
    if k > x + 1 { assert LinkAt(fl, ptr, k - 1); }
  }

  // ---------------------------------------------------------------- what malloc takes

  /** The whole block is taken off the list. */
  lemma TakeWhole(base: nat, fl: seq<nat>, ptr: map<nat, nat>, live: map<nat, nat>, all: map<nat, nat>,
                  size: map<nat, nat>, heap: set<nat>, k: nat, p: nat, ptr': map<nat, nat>)
    requires Shape(base, fl, size) && Links(fl, ptr) && Blocks(base, fl, live, all, size, heap)
    requires k + 1 < |fl| && p == fl[k + 1] && p in ptr && p in size && ptr' == ptr[fl[k] := ptr[p]]
    ensures Shape(base, Without(fl, k + 1), size) && Links(Without(fl, k + 1), ptr') && fl[k] in Without(fl, k + 1)
    ensures p !in live && p != base && Blocks(base, Without(fl, k + 1), live[p := size[p]], all, size, heap)
  {
    hide Without, Blocks, Succ;
    var fl' := Without(fl, k + 1);
    TakenList(base, fl, ptr, size, k, p, ptr');
    TakenBlocks(base, fl, live, all, size, heap, k, p);
  }

  lemma TakenList(base: nat, fl: seq<nat>, ptr: map<nat, nat>, size: map<nat, nat>, k: nat, p: nat, ptr': map<nat, nat>)
    requires Shape(base, fl, size) && Links(fl, ptr) && k + 1 < |fl| && p == fl[k + 1] && p in ptr
    requires ptr' == ptr[fl[k] := ptr[p]]
    ensures Shape(base, Without(fl, k + 1), size) && Links(Without(fl, k + 1), ptr')
  {
    var fl' := Without(fl, k + 1);
    assert Sorted(fl') by { WithoutSorted(fl, k + 1); }
    assert fl'[0] == fl[0];
    forall i: nat | i + 1 < |fl'|
      ensures GapAt(fl', size, i)
    {
      RemovedGap(fl, size, size, k, 0, i);
    }
    forall i: nat | i < |fl'|
      ensures LinkAt(fl', ptr', i)
    {
      TakenLink(fl, ptr, ptr', k, i);
    }
  }

  lemma TakenLink(fl: seq<nat>, ptr: map<nat, nat>, ptr': map<nat, nat>, k: nat, i: nat)
    requires Sorted(fl) && Links(fl, ptr) && k + 1 < |fl| && i + 1 < |fl|
    requires fl[k + 1] in ptr && ptr' == ptr[fl[k] := ptr[fl[k + 1]]]
    ensures LinkAt(Without(fl, k + 1), ptr', i)
  {
    var j := if i <= k then i else i + 1;
    assert LinkAt(fl, ptr, j);
    assert LinkAt(fl, ptr, k + 1);
  }

  lemma TakenBlocks(base: nat, fl: seq<nat>, live: map<nat, nat>, all: map<nat, nat>, size: map<nat, nat>,
                    heap: set<nat>, k: nat, p: nat)
    requires Blocks(base, fl, live, all, size, heap) && Sorted(fl) && k + 1 < |fl| && p == fl[k + 1] && fl[0] == base
    requires p in size
    ensures fl[k] in Without(fl, k + 1) && p !in live && p != base
    ensures Blocks(base, Without(fl, k + 1), live[p := size[p]], all, size, heap)
  {
    hide Apart, Covers, Without;
    WithoutSorted(fl, k + 1);
    assert fl[k + 1] in fl && fl[k] in fl;
  }

  /** The end of the block becomes a live block. */
  lemma TakeTail(base: nat, fl: seq<nat>, live: map<nat, nat>, all: map<nat, nat>, size: map<nat, nat>,
                 heap: set<nat>, k: nat, p: nat, n: nat, t: nat, size': map<nat, nat>)
    requires Shape(base, fl, size) && Blocks(base, fl, live, all, size, heap)
    requires 0 < k < |fl| && p == fl[k] && p in size && 0 < n < size[p] && t == p + size[p] - n
    requires size' == size[p := size[p] - n][t := n]
    ensures t !in live && p in all && all[p] == size[p] && Shape(base, fl, size')
    ensures Blocks(base, fl, live[t := n], Split(all, p, n), size', heap)
  {
    assert fl[k] in fl;
    SplitKeeps(all, p, n, heap);
    TailBlocks(base, fl, live, all, size, heap, p, n, t, size');
    forall i: nat | i + 1 < |fl|
      ensures GapAt(fl, size', i)
    {
      assert GapAt(fl, size, i);
      assert fl[i] in fl;
    }
  }

  lemma TailBlocks(base: nat, fl: seq<nat>, live: map<nat, nat>, all: map<nat, nat>, size: map<nat, nat>,
                   heap: set<nat>, p: nat, n: nat, t: nat, size': map<nat, nat>)
    requires Blocks(base, fl, live, all, size, heap) && p in fl && p != base && p in size && 0 < n < size[p]
    requires t == p + size[p] - n && size' == size[p := size[p] - n][t := n]
    requires p in all && t !in all && Apart(Split(all, p, n)) && Covers(Split(all, p, n), heap)
    ensures t !in live && t !in fl && Blocks(base, fl, live[t := n], Split(all, p, n), size', heap)
  {
    hide Apart, Covers;
  }

  /** A fresh region becomes a live block. */
  lemma AddLive(base: nat, fl: seq<nat>, live: map<nat, nat>, all: map<nat, nat>, size: map<nat, nat>,
                heap: set<nat>, a: nat, n: nat)
    requires Shape(base, fl, size) && Blocks(base, fl, live, all, size, heap)
    requires base < a && 0 < n && Span(a, n) !! heap
    ensures a !in live && Shape(base, fl, size[a := n])
    ensures Blocks(base, fl, live[a := n], all[a := n], size[a := n], heap + Span(a, n))
  {
    var size' := size[a := n];
    AddKeeps(all, a, n, heap);
    AddedBlocks(base, fl, live, all, size, heap, a, n);
    forall i: nat | i + 1 < |fl|
      ensures GapAt(fl, size', i)
    {
      assert GapAt(fl, size, i) && fl[i] in fl;
    }
  }

  lemma AddedBlocks(base: nat, fl: seq<nat>, live: map<nat, nat>, all: map<nat, nat>, size: map<nat, nat>,
                    heap: set<nat>, a: nat, n: nat)
    requires Blocks(base, fl, live, all, size, heap) && base < a && 0 < n && a !in all
    requires Apart(all[a := n]) && Covers(all[a := n], heap + Span(a, n))
    ensures a !in fl && Blocks(base, fl, live[a := n], all[a := n], size[a := n], heap + Span(a, n))
  {
    hide Apart, Covers;
  }

  // ---------------------------------------------------------------- going round the list

  /** `c` places on from `s`, around a list of `n`. */
  function Cyc(n: nat, s: nat, c: nat): (k: nat)
    requires s < n && c <= n
    ensures k < n
  {
    if s + c < n then s + c else s + c - n
  }

  lemma NextOnList(fl: seq<nat>, ptr: map<nat, nat>, k: nat)
    requires Links(fl, ptr) && k < |fl|
    ensures fl[k] in ptr && ptr[fl[k]] == Succ(fl, k) == fl[Cyc(|fl|, k, 1)]
  {
    assert LinkAt(fl, ptr, k);
  }

  lemma HasSize(base: nat, fl: seq<nat>, live: map<nat, nat>, all: map<nat, nat>, size: map<nat, nat>,
                heap: set<nat>, k: nat)
    requires Shape(base, fl, size) && Blocks(base, fl, live, all, size, heap) && k < |fl|
    ensures fl[k] in size && (size[fl[k]] > 0 ==> k > 0) && fl[k] > 0 && (k > 0 ==> fl[k] > base)
  {
    assert fl[k] in fl;
  }

  /** Back at the start, every element has been seen. */
  lemma RoundTrip(base: nat, fl: seq<nat>, size: map<nat, nat>, s: nat, c: nat, units: nat)
    requires Shape(base, fl, size) && s < |fl| && c < |fl| && fl[Cyc(|fl|, s, c + 1)] == fl[s]
    requires forall d: nat :: 1 <= d <= c + 1 ==> Small(fl, size, Cyc(|fl|, s, d), units)
    ensures NoneFits(fl, size, units)
  {
    var n := |fl|;
    assert Cyc(n, s, c + 1) == s;
    forall k: nat | k < n
      ensures Small(fl, size, k, units)
    {
      var d := if k > s then k - s else k - s + n;
      assert Cyc(n, s, d) == k;
    }
  }

  ghost predicate Small(fl: seq<nat>, size: map<nat, nat>, k: nat, units: nat)
    requires k < |fl|
  {
    fl[k] in size && size[fl[k]] < units
  }

  /** No free block has `units` units. */
  ghost predicate NoneFits(fl: seq<nat>, size: map<nat, nat>, units: nat) {
    forall k: nat :: k < |fl| ==> Small(fl, size, k, units)
  }

  /** The search of `free` begins on a list that has a place for the block. */
  lemma Where(base: nat, fl: seq<nat>, live: map<nat, nat>, all: map<nat, nat>, size: map<nat, nat>, heap: set<nat>,
              bp: nat)
    requires Shape(base, fl, size) && Blocks(base, fl, live, all, size, heap) && bp in live
    ensures |fl| >= 1 && fl[0] == base < bp && bp !in fl && Placed(base, fl, live, all, size, heap, Before(fl, bp), bp)
  {
    var x := Before(fl, bp);
    assert x + 1 < |fl| ==> fl[x + 1] in fl;
  }

  lemma LastLink(fl: seq<nat>, ptr: map<nat, nat>, x: nat, bp: nat)
    requires LinksBut(fl, ptr, x, bp)
    ensures x < |fl| && bp in ptr
  {
  }

  lemma OnList(fl: seq<nat>, x: nat, bp: nat)
    requires x < |fl|
    ensures fl[x] in Inserted(fl, x, bp) && bp in Inserted(fl, x, bp)
  {
    var r := Inserted(fl, x, bp);
    assert r[x] == fl[x] && r[x + 1] == bp;
  }

  /** The list of a first call: just `base`. */
  lemma FirstList(base: nat, ptr: map<nat, nat>, size: map<nat, nat>, units: nat)
    requires 0 < base && base in ptr && ptr[base] == base && base in size && size[base] == 0 && units >= 1
    ensures Shape(base, [base], size) && Links([base], ptr) && Blocks(base, [base], map[], map[], size, {})
    ensures NoneFits([base], size, units)
  {
    assert forall u: nat :: !Covered(map[], u);
  }

  /** A block that fits was found on the first round, unless the list has grown since. */
  lemma DoesFit(fl0: seq<nat>, size0: map<nat, nat>, fl: seq<nat>, size: map<nat, nat>, j: nat, units: nat)
    requires j < |fl| && fl[j] in size && size[fl[j]] >= units
    ensures fl == fl0 && size == size0 ==> !NoneFits(fl0, size0, units)
  {
    assert !Small(fl, size, j, units);
  }

  lemma IsSmall(fl: seq<nat>, size: map<nat, nat>, s: nat, c: nat, j: nat, units: nat)
    requires s < |fl| && c < |fl| && j == Cyc(|fl|, s, c + 1) && fl[j] in size && size[fl[j]] < units
    requires forall d: nat :: 1 <= d <= c ==> Small(fl, size, Cyc(|fl|, s, d), units)
    ensures forall d: nat :: 1 <= d <= c + 1 ==> Small(fl, size, Cyc(|fl|, s, d), units)
  {
  }

  /** A round without a find means that the list has not grown. */
  lemma NotIfGrown(fl: seq<nat>, size: map<nat, nat>, at: nat, grown: bool, units: nat)
    requires NoneFits(fl, size, units) && (grown ==> at in fl && at in size && size[at] >= units)
    ensures !grown
  {
    if at in fl { assert Small(fl, size, Place(fl, at), units); }
  }

  lemma Around(n: nat, s: nat, c: nat)
    requires s < n && c < n
    ensures Cyc(n, s, c + 1) > 0 ==> Cyc(n, s, c) + 1 == Cyc(n, s, c + 1)
    ensures Cyc(n, s, 0) == s
  {
  }

  /** Not back at the start, so there is a next place. */
  lemma Onward(fl: seq<nat>, s: nat, c: nat, j: nat)
    requires s < |fl| && c < |fl| && j == Cyc(|fl|, s, c + 1) && fl[j] != fl[s]
    ensures c + 1 < |fl| && Cyc(|fl|, j, 1) == Cyc(|fl|, s, c + 2)
  {
  }
}
