/** umalloc.c: the allocator of Kernighan and Ritchie, section 8.7 of The C Programming Language,
    2nd edition, in units of one header of 8 bytes.  What `sbrk` would return, if it is called, is
    a parameter. */
module Malloc {
  import opened Bytes
  import opened Common
  import opened FreeList
  import opened FreeSteps

  const HEADER: nat := 8
  const MINCORE: nat := 4096

  /** The units that `malloc` looks for, in 32-bit arithmetic. */
  function Units(nbytes: nat): (n: nat)
    ensures n >= 1
  {
    (nbytes + HEADER - 1) % WORD / HEADER + 1
  }

  /** A block of that size holds the bytes asked for exactly when the sum does not wrap. */
  lemma EnoughIff(nbytes: nat)
    requires nbytes < WORD
    ensures (Units(nbytes) - 1) * HEADER >= nbytes <==> nbytes <= WORD - HEADER
    ensures nbytes <= WORD - HEADER ==> (Units(nbytes) - 2) * HEADER < nbytes
    ensures nbytes > WORD - HEADER ==> Units(nbytes) == 1
  {
    var s := nbytes + HEADER - 1;
    if s < WORD {
      assert s % WORD == s;
      assert s == HEADER * (s / HEADER) + s % HEADER;
    } else {
      assert s % WORD == s - WORD;
      assert (s - WORD) / HEADER == 0;
    }
  }

  /** What `morecore` asks `sbrk` for. */
  function Asked(units: nat): (n: nat) {
    if units < MINCORE then MINCORE else units
  }

  class Allocator {
    const base: nat
    var ptr: map<nat, nat>
    var size: map<nat, nat>
    var freep: nat  // 0 before the first call of `malloc`
    ghost var fl: seq<nat>
    ghost var live: map<nat, nat>
    ghost var all: map<nat, nat>
    ghost var heap: set<nat>

    ghost predicate Ready()
      reads this
    {
      && freep in fl && Shape(base, fl, size) && Links(fl, ptr)
      && Blocks(base, fl, live, all, size, heap)
    }

    ghost predicate Valid()
      reads this
    {
      0 < base && if freep == 0 then live == map[] && all == map[] && heap == {} else Ready()
    }

    constructor (base: nat)
      requires 0 < base
      ensures Valid() && this.base == base && freep == 0
    {
      this.base := base;
      ptr, size, freep := map[], map[], 0;
      fl, live, all, heap := [], map[], map[], {};
    }

    /** `free`: the block is live no more, and its units are in the free block at `at`. */
    method Free(bp: nat) returns (ghost at: nat)
      requires Valid() && bp in live
      modifies this`ptr, this`size, this`freep, this`fl, this`live, this`all
      ensures Valid() && freep != 0 && live == old(live) - {bp}
      ensures at in fl && at in size && at <= bp && bp + old(live)[bp] <= at + size[at]
    {
      hide Shape, Links, Blocks, LinksBut, RoomAbove, Placed;
      Where(base, fl, live, all, size, heap, bp);
      ghost var x := Before(fl, bp);
      var p := freep;
      ghost var k: nat := Place(fl, freep);
      NextOnList(fl, ptr, k);
      while !StopsAt(p, ptr[p], bp)
        invariant unchanged(this) && k < |fl| && p == fl[k] && p in ptr && ptr[p] == Succ(fl, k)
        decreases if k <= x then x - k else x + |fl| - k
      {
        StopIff(base, fl, size, bp, k);
        p := ptr[p];
        k := Cyc(|fl|, k, 1);
        NextOnList(fl, ptr, k);
      }
      StopIff(base, fl, size, bp, k);
      JoinAbove(bp, p, x);
      at := JoinBelow(bp, p, x);
      freep := p;
      assert live == old(live) - {bp};
    }

    /** `free`, once the place is found: merge with the block above, or point at it. */
    method JoinAbove(bp: nat, p: nat, ghost x: nat)
      requires Placed(base, fl, live, all, size, heap, x, bp) && Links(fl, ptr) && p == fl[x] && p in ptr
      requires ptr[p] == Succ(fl, x)
      modifies this`ptr, this`size, this`fl, this`live, this`all
      ensures Placed(base, fl, live, all, size, heap, x, bp) && LinksBut(fl, ptr, x, bp) && RoomAbove(fl, size, x, bp)
      ensures fl[x] == p && bp in old(live) && live == old(live)[bp := live[bp]] && live[bp] >= old(live)[bp]
    {
      hide Links, LinksBut, RoomAbove, Placed, Merge;
      NextFacts(base, fl, live, all, size, heap, x, bp);
      assert live[bp := live[bp]] == live;
      if bp + size[bp] == ptr[p] {
        MergeAbove(base, fl, ptr, live, all, size, heap, x, bp, ptr[p]);
        fl, live, all := Without(fl, x + 1), live[bp := size[bp] + size[ptr[p]]], Merge(all, bp, ptr[p]);
        size, ptr := size[bp := size[bp] + size[ptr[p]]], ptr[bp := ptr[ptr[p]]];
      } else {
        NotAbove(base, fl, ptr, live, all, size, heap, x, bp, ptr[p]);
        ptr := ptr[bp := ptr[p]];
      }
    }

    /** ... and merge with the block below, or be pointed at from it. */
    method JoinBelow(bp: nat, p: nat, ghost x: nat) returns (ghost at: nat)
      requires Placed(base, fl, live, all, size, heap, x, bp) && LinksBut(fl, ptr, x, bp)
      requires RoomAbove(fl, size, x, bp) && p == fl[x]
      modifies this`ptr, this`size, this`fl, this`live, this`all
      ensures Shape(base, fl, size) && Links(fl, ptr) && Blocks(base, fl, live, all, size, heap) && p in fl && p > 0
      ensures bp in old(live) && live == old(live) - {bp}
      ensures at in fl && at in size && at <= bp && bp + old(live)[bp] <= at + size[at]
    {
      hide Shape, Links, Blocks, LinksBut, RoomAbove, Placed, Merge, Inserted;
      NextFacts(base, fl, live, all, size, heap, x, bp);
      LastLink(fl, ptr, x, bp);
      assert fl[x] in fl;
      at := bp;
      if p + size[p] == bp {
        MergeBelow(base, fl, ptr, live, all, size, heap, x, bp, p);
        at := p;
        live, all := live - {bp}, Merge(all, p, bp);
        size, ptr := size[p := size[p] + size[bp]], ptr[p := ptr[bp]];
      } else {
        NotBelow(base, fl, ptr, live, all, size, heap, x, bp, p);
        OnList(fl, x, bp);
        fl, live := Inserted(fl, x, bp), live - {bp};
        ptr := ptr[p := bp];
      }
    }

    /** `morecore`: a region from `sbrk`, freed like any block. */
    method Morecore(units: nat, brk: Option<nat>) returns (r: nat, ghost at: nat)
      requires Valid() && freep != 0 && (brk.Some? ==> Fresh(base, heap, brk.value, units))
      modifies this`ptr, this`size, this`freep, this`fl, this`live, this`all, this`heap
      ensures Valid() && freep != 0 && live == old(live) && (r == 0 <==> brk.None?)
      ensures brk.None? ==> heap == old(heap) && all == old(all) && fl == old(fl) && size == old(size) && freep == old(freep)
      ensures brk.Some? ==> r == freep && heap == old(heap) + Span(brk.value, Asked(units))
      ensures brk.Some? ==> at in fl && at in size && size[at] >= units
    {
      hide Shape, Links, Blocks;
      at := 0;
      var nu := units;
      if nu < MINCORE {
        nu := MINCORE;
      }
      if brk.None? {
        return 0, at;
      }
      var hp := brk.value;
      AddLive(base, fl, live, all, size, heap, hp, nu);
      size := size[hp := nu];
      live, all, heap := live[hp := nu], all[hp := nu], heap + Span(hp, nu);
      at := Free(hp);
      MapBack(old(live), hp, nu);
      r := freep;
    }

    /** `malloc`, once a block is found: take all of it, or its end. */
    method Carve(prevp: nat, p: nat, nunits: nat, ghost k: nat) returns (r: nat)
      requires Valid() && freep != 0 && k + 1 < |fl| && prevp == fl[k] && p == fl[k + 1] && p in size
      requires 1 <= nunits <= size[p]
      modifies this`ptr, this`size, this`freep, this`fl, this`live, this`all
      ensures Valid() && freep == prevp != 0
      ensures base < r && r !in old(live) && live == old(live)[r := nunits]
    {
      hide Shape, Links, Blocks, Split, Without;
      NextOnList(fl, ptr, k + 1);
      HasSize(base, fl, live, all, size, heap, k);
      HasSize(base, fl, live, all, size, heap, k + 1);
      assert fl[k] in fl;
      if size[p] == nunits {
        TakeWhole(base, fl, ptr, live, all, size, heap, k, p, ptr[prevp := ptr[p]]);
        ptr := ptr[prevp := ptr[p]];
        fl := Without(fl, k + 1);
        r := p;
      } else {
        ghost var t := p + size[p] - nunits;
        TakeTail(base, fl, live, all, size, heap, k + 1, p, nunits, t, size[p := size[p] - nunits][t := nunits]);
        all := Split(all, p, nunits);
        size := size[p := size[p] - nunits];
        r := p + size[p];
        size := size[r := nunits];
      }
      live := live[r := nunits];
      freep := prevp;
    }

    /** The first call of `malloc`: the list is the empty block `base`, linked to itself. */
    method StartList(ghost nunits: nat)
      requires Valid() && 1 <= nunits
      modifies this`ptr, this`size, this`freep, this`fl
      ensures Valid() && freep != 0
      ensures old(freep) != 0 ==> freep == old(freep) && fl == old(fl) && size == old(size) && ptr == old(ptr)
      ensures old(freep) == 0 ==> fl == [base] && NoneFits(fl, size, nunits)
    {
      hide Shape, Links, Blocks, NoneFits;
      if freep == 0 {
        freep := base;
        ptr := ptr[base := base];
        size := size[base := 0];
        fl := [base];
        FirstList(base, ptr, size, nunits);
      }
    }

    /** `malloc`: a new live block of Units(nbytes) units.  It is null exactly when no free block
        fits and `sbrk` fails; every other live block stays as it was. */
    method MallocBytes(nbytes: nat, brk: Option<nat>) returns (r: nat)
      requires Valid() && nbytes < WORD && (brk.Some? ==> Fresh(base, heap, brk.value, Units(nbytes)))
      modifies this`ptr, this`size, this`freep, this`fl, this`live, this`all, this`heap
      ensures Valid()
      ensures r == 0 <==> brk.None? && (old(freep) == 0 || NoneFits(old(fl), old(size), Units(nbytes)))
      ensures r == 0 ==> live == old(live) && heap == old(heap)
      ensures r != 0 ==> base < r - 1 && r - 1 !in old(live) && live == old(live)[r - 1 := Units(nbytes)]
      ensures r != 0 ==>
                heap == if old(freep) == 0 || NoneFits(old(fl), old(size), Units(nbytes))
                        then old(heap) + Span(brk.value, Asked(Units(nbytes))) else old(heap)
    {
      hide Shape, Links, Blocks, NoneFits, Small, Units, Cyc, Succ, Asked, Fresh;
      var nunits := Units(nbytes);
      StartList(nunits);
      var prevp := freep;
      ghost var fl0, size0 := fl, size;
      ghost var s: nat, c: nat, grown, at := Place(fl, freep), 0, false, 0;
      NextOnList(fl, ptr, s);
      Around(|fl|, s, 0);
      var p := ptr[prevp];
      while true
        invariant Valid() && freep != 0 && s < |fl| && freep == fl[s] && c < |fl| && nunits == Units(nbytes)
        invariant prevp == fl[Cyc(|fl|, s, c)] && p == fl[Cyc(|fl|, s, c + 1)]
        invariant forall d: nat :: 1 <= d <= c ==> Small(fl, size, Cyc(|fl|, s, d), nunits)
        invariant live == old(live) && (!grown ==> fl == fl0 && size == size0 && heap == old(heap))
        invariant grown ==> brk.Some? && at in fl && at in size && size[at] >= nunits && NoneFits(fl0, size0, nunits)
        invariant grown ==> heap == old(heap) + Span(brk.value, Asked(nunits))
        decreases !grown, |fl| - c
      {
        ghost var k := Cyc(|fl|, s, c);
        ghost var j := Cyc(|fl|, s, c + 1);
        Around(|fl|, s, c);
        NextOnList(fl, ptr, j);
        HasSize(base, fl, live, all, size, heap, j);
        if size[p] >= nunits {
          DoesFit(fl0, size0, fl, size, j, nunits);
          p := Carve(prevp, p, nunits, k);
          return p + 1;
        }
        IsSmall(fl, size, s, c, j, nunits);
        if p == freep {
          RoundTrip(base, fl, size, s, c, nunits);
          NotIfGrown(fl, size, at, grown, nunits);
          p, at := Morecore(nunits, brk);
          if p == 0 {
            return 0;
          }
          grown, s, c := true, Place(fl, freep), 0;
          NextOnList(fl, ptr, s);
          Around(|fl|, s, 0);
          prevp, p := p, ptr[p];
        } else {
          Onward(fl, s, c, j);
          prevp, p := p, ptr[p];
          c := c + 1;
        }
      }
    }
  }

  /** What it means that `malloc` finds no block: every block on the free list has fewer units. */
  lemma NoneFitsIff(fl: seq<nat>, size: map<nat, nat>, units: nat)
    ensures NoneFits(fl, size, units) <==> forall h :: h in fl ==> h in size && size[h] < units
  {
    if forall h :: h in fl ==> h in size && size[h] < units {
      forall k: nat | k < |fl|
        ensures Small(fl, size, k, units)
      {
        assert fl[k] in fl;
      }
    }
    if NoneFits(fl, size, units) {
      forall h | h in fl
        ensures h in size && size[h] < units
      {
        var k :| 0 <= k < |fl| && fl[k] == h;
        assert Small(fl, size, k, units);
      }
    }
  }

  /** `morecore` asks for no fewer units than wanted, and never for fewer than 4096. */
  lemma AskedIs(units: nat)
    ensures Asked(units) >= units && Asked(units) >= 4096
    ensures Asked(units) == units || (units < 4096 && Asked(units) == 4096)
  {
  }

  lemma MapBack(m: map<nat, nat>, a: nat, n: nat)
    requires a !in m
    ensures m[a := n] - {a} == m
  {
  }

  /** The region from `a` on that `sbrk` returned has not been used, and lies above `base`. */
  ghost predicate Fresh(base: nat, heap: set<nat>, a: nat, units: nat) {
    base < a && Asked(units) * HEADER < WORD / 2 && Span(a, Asked(units)) !! heap
  }
}
