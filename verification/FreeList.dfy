/** The blocks of the user allocator of umalloc.c, in units of one header.

    `ptr` and `size` are the two words of each header.  The free list is the sequence `fl`, in
    address order from `base` on; `live` are the blocks handed out, `all` are the free and the
    live blocks together, and `heap` are the units obtained from `sbrk`. */
module FreeList {

  /** The element after the `k`-th one around the list. */
  function Succ(fl: seq<nat>, k: nat): (a: nat)
    requires k < |fl|
  {
    if k + 1 < |fl| then fl[k + 1] else fl[0]
  }

  ghost predicate LinkAt(fl: seq<nat>, ptr: map<nat, nat>, k: nat)
    requires k < |fl|
  {
    fl[k] in ptr && ptr[fl[k]] == Succ(fl, k)
  }

  /** A free block ends before the next one begins, with something in between. */
  ghost predicate GapAt(fl: seq<nat>, size: map<nat, nat>, k: nat)
    requires k + 1 < |fl|
  {
    fl[k] in size && fl[k] + size[fl[k]] < fl[k + 1]
  }

  ghost predicate Sorted(fl: seq<nat>) {
    forall i, j :: 0 <= i < j < |fl| ==> fl[i] < fl[j]
  }

  /** In address order from an empty `base`, disjoint and fully coalesced. */
  ghost predicate Shape(base: nat, fl: seq<nat>, size: map<nat, nat>) {
    && 0 < base && |fl| >= 1 && fl[0] == base && base in size && size[base] == 0
    && Sorted(fl) && forall k: nat :: k + 1 < |fl| ==> GapAt(fl, size, k)
  }

  /** The circular list through `ptr`. */
  ghost predicate Links(fl: seq<nat>, ptr: map<nat, nat>) {
    forall k: nat :: k < |fl| ==> LinkAt(fl, ptr, k)
  }

  /** ... except that the `x`-th element is still to be linked, in front of what `bp` points to. */
  ghost predicate LinksBut(fl: seq<nat>, ptr: map<nat, nat>, x: nat, bp: nat) {
    && x < |fl| && bp in ptr && ptr[bp] == Succ(fl, x)
    && forall k: nat :: k < |fl| && k != x ==> LinkAt(fl, ptr, k)
  }

  ghost predicate Apart(all: map<nat, nat>) {
    forall a, b :: a in all && b in all && a < b ==> a + all[a] <= b
  }

  /** Unit `u` is in the block at `h`. */
  ghost predicate Has(all: map<nat, nat>, h: nat, u: nat) {
    h in all && h <= u < h + all[h]
  }

  ghost predicate Covered(all: map<nat, nat>, u: nat) {
    exists h :: Has(all, h, u)
  }

  /** A unit is in one block only. */
  lemma OneBlock(all: map<nat, nat>, g: nat, h: nat, u: nat)
    requires Apart(all) && Has(all, g, u) && Has(all, h, u)
    ensures g == h
  {
  }

  ghost predicate Covers(all: map<nat, nat>, heap: set<nat>) {
    forall u: nat :: u in heap <==> Covered(all, u)
  }

  /** The blocks tile the heap, and each is on the free list or live. */
  ghost predicate Blocks(base: nat, fl: seq<nat>, live: map<nat, nat>, all: map<nat, nat>, size: map<nat, nat>,
                         heap: set<nat>) {
    && (forall h :: h in all <==> h in live || (h in fl && h != base))
    && (forall h :: h in live ==> h !in fl && h in size && live[h] == size[h])
    && (forall h :: h in all ==> h in size && all[h] == size[h] && size[h] >= 1 && h > base)
    && Apart(all) && Covers(all, heap) && forall u :: u in heap ==> u > base
  }

  // ---------------------------------------------------------------- merging and splitting blocks

  /** Two blocks that touch become one. */
  ghost function Merge(all: map<nat, nat>, a: nat, b: nat): (r: map<nat, nat>)
    requires a in all && b in all
  {
    (all - {b})[a := all[a] + all[b]]
  }

  lemma MergeKeeps(all: map<nat, nat>, a: nat, b: nat, heap: set<nat>)
    requires a in all && b in all && a + all[a] == b && all[a] > 0 && Apart(all) && Covers(all, heap)
    ensures Apart(Merge(all, a, b)) && Covers(Merge(all, a, b), heap)
  {
    var r := Merge(all, a, b);
    forall u: nat
      ensures Covered(r, u) <==> Covered(all, u)
    {
      if Covered(all, u) {
        var h :| Has(all, h, u);
        assert Has(r, if h == b then a else h, u);
      }
      if Covered(r, u) {
        var h :| Has(r, h, u);
        assert Has(all, if h == a && u >= b then b else h, u);
      }
    }
  }

  /** The last `n` units of a block become a block of their own. */
  ghost function Split(all: map<nat, nat>, a: nat, n: nat): (r: map<nat, nat>)
    requires a in all && n <= all[a]
  {
    all[a := all[a] - n][a + all[a] - n := n]
  }

  lemma SplitKeeps(all: map<nat, nat>, a: nat, n: nat, heap: set<nat>)
    requires a in all && 0 < n < all[a] && Apart(all) && Covers(all, heap)
    ensures a + all[a] - n !in all && Apart(Split(all, a, n)) && Covers(Split(all, a, n), heap)
  {
    forall u: nat
      ensures Covered(Split(all, a, n), u) <==> Covered(all, u)
    {
      SplitCovered(all, a, n, u);
    }
  }

  lemma SplitCovered(all: map<nat, nat>, a: nat, n: nat, u: nat)
    requires a in all && 0 < n < all[a] && Apart(all)
    ensures Covered(Split(all, a, n), u) <==> Covered(all, u)
  {
    var r, t: nat := Split(all, a, n), a + all[a] - n;
    assert t !in all;
    if Covered(all, u) {
      var h: nat :| Has(all, h, u);
      if h == a && u >= t { assert Has(r, t, u); } else { assert Has(r, h, u); }
    }
    if Covered(r, u) {
      var h: nat :| Has(r, h, u);
      if h == t { assert Has(all, a, u); } else { assert Has(all, h, u); }
    }
  }

  /** The units of a block. */
  ghost function Span(a: nat, n: nat): (s: set<nat>)
    ensures |s| == n && forall u :: u in s <==> a <= u < a + n
  {
    if n == 0 then {} else Span(a, n - 1) + {a + n - 1}
  }

  lemma AddKeeps(all: map<nat, nat>, a: nat, n: nat, heap: set<nat>)
    requires 0 < n && Apart(all) && Covers(all, heap) && Span(a, n) !! heap && forall h :: h in all ==> all[h] > 0
    ensures a !in all && Apart(all[a := n]) && Covers(all[a := n], heap + Span(a, n))
  {
    hide Covered;
    assert a in Span(a, n);
    forall h | h in all
      ensures h + all[h] <= a || a + n <= h
    {
      BlockCovered(all, h, h);
      if h <= a < h + all[h] { BlockCovered(all, h, a); }
    }
    forall u: nat
      ensures Covered(all[a := n], u) <==> Covered(all, u) || a <= u < a + n
    {
      AddCovered(all, a, n, u);
    }
  }

  lemma BlockCovered(all: map<nat, nat>, h: nat, u: nat)
    requires Has(all, h, u)
    ensures Covered(all, u)
  {
  }

  lemma AddCovered(all: map<nat, nat>, a: nat, n: nat, u: nat)
    requires a !in all
    ensures Covered(all[a := n], u) <==> Covered(all, u) || a <= u < a + n
  {
    var r := all[a := n];
    if a <= u < a + n { assert Has(r, a, u); }
    if Covered(all, u) {
      var h :| Has(all, h, u);
      assert Has(r, h, u);
    }
    if Covered(r, u) {
      var h :| Has(r, h, u);
      assert h != a ==> Has(all, h, u);
    }
  }

  // ---------------------------------------------------------------- conservation

  ghost function Total(bs: map<nat, nat>): (n: nat) {
    if bs == map[] then 0 else var h :| h in bs; bs[h] + Total(bs - {h})
  }

  /** Blocks that are apart cover as many units as they have. */
  lemma {:induction false} TotalIs(bs: map<nat, nat>, units: set<nat>)
    requires Apart(bs) && Covers(bs, units)
    ensures Total(bs) == |units|
    decreases |bs|
  {
    hide Covered, Has, Apart;
    if bs == map[] {
      NothingCovered(units);
    } else {
      var h :| h in bs && Total(bs) == bs[h] + Total(bs - {h});
      RestCovers(bs, h, units);
      TotalIs(bs - {h}, units - Span(h, bs[h]));
      assert units == (units - Span(h, bs[h])) + Span(h, bs[h]);
    }
  }

  lemma NothingCovered(units: set<nat>)
    requires Covers(map[], units)
    ensures units == {}
  {
  }

  lemma RestCovers(bs: map<nat, nat>, h: nat, units: set<nat>)
    requires Apart(bs) && Covers(bs, units) && h in bs
    ensures Apart(bs - {h}) && Covers(bs - {h}, units - Span(h, bs[h])) && Span(h, bs[h]) <= units
  {
    hide Covered;
    forall u: nat
      ensures Covered(bs - {h}, u) <==> Covered(bs, u) && !(h <= u < h + bs[h])
    {
      RestCovered(bs, h, u);
    }
    forall u | u in Span(h, bs[h])
      ensures u in units
    {
      RestCovered(bs, h, u);
    }
  }

  lemma RestCovered(bs: map<nat, nat>, h: nat, u: nat)
    requires Apart(bs) && h in bs
    ensures Covered(bs - {h}, u) <==> Covered(bs, u) && !(h <= u < h + bs[h])
    ensures h <= u < h + bs[h] ==> Covered(bs, u)
  {
    if Covered(bs - {h}, u) {
      var g :| Has(bs - {h}, g, u);
      assert Has(bs, g, u) && g != h;
    }
    if Covered(bs, u) {
      var g :| Has(bs, g, u);
      assert g != h ==> Has(bs - {h}, g, u);
    }
    if h <= u < h + bs[h] { assert Has(bs, h, u); }
  }

  /** The free blocks, with their sizes. */
  ghost function FreeBlocks(all: map<nat, nat>, live: map<nat, nat>): (bs: map<nat, nat>) {
    all - live.Keys
  }

  ghost function UnitsOf(bs: map<nat, nat>, heap: set<nat>): (s: set<nat>) {
    set u | u in heap && Covered(bs, u)
  }

  /** Free and live units together are the units obtained from `sbrk`. */
  lemma UnitsConserved(base: nat, fl: seq<nat>, live: map<nat, nat>, all: map<nat, nat>, size: map<nat, nat>,
                       heap: set<nat>)
    requires Blocks(base, fl, live, all, size, heap)
    ensures Total(FreeBlocks(all, live)) + Total(live) == |heap|
  {
    var fb := FreeBlocks(all, live);
    FreeAndLive(all, live, fb, heap);
    var f, l := UnitsOf(fb, heap), UnitsOf(live, heap);
    TotalIs(fb, f);
    TotalIs(live, l);
    assert heap == f + l && f !! l;
  }

  lemma FreeAndLive(all: map<nat, nat>, live: map<nat, nat>, fb: map<nat, nat>, heap: set<nat>)
    requires Apart(all) && Covers(all, heap) && fb == all - live.Keys
    requires (forall h :: h in live ==> h in all && live[h] == all[h])
    ensures Apart(fb) && Apart(live) && Covers(fb, UnitsOf(fb, heap)) && Covers(live, UnitsOf(live, heap))
    ensures UnitsOf(fb, heap) + UnitsOf(live, heap) == heap && UnitsOf(fb, heap) !! UnitsOf(live, heap)
  {
    hide Covered;
    forall u: nat
      ensures Covered(all, u) <==> Covered(fb, u) || Covered(live, u)
      ensures !(Covered(fb, u) && Covered(live, u))
    {
      SplitUnits(all, live, fb, u);
    }
  }

  lemma SplitUnits(all: map<nat, nat>, live: map<nat, nat>, fb: map<nat, nat>, u: nat)
    requires Apart(all) && fb == all - live.Keys && (forall h :: h in live ==> h in all && live[h] == all[h])
    ensures Covered(all, u) <==> Covered(fb, u) || Covered(live, u)
    ensures !(Covered(fb, u) && Covered(live, u))
  {
    forall h, g | Has(fb, h, u) && Has(live, g, u)
      ensures h == g
    {
      OneBlock(all, h, g, u);
    }
    if Covered(fb, u) {
      var h :| Has(fb, h, u);
      assert Has(all, h, u);
    }
    if Covered(live, u) {
      var g :| Has(live, g, u);
      assert Has(all, g, u);
    }
    if Covered(all, u) {
      var h :| Has(all, h, u);
      assert Has(live, h, u) || Has(fb, h, u);
    }
  }
}
