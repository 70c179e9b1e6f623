/** kalloc.c and the address-space part of vm.c.

    Pages from `first` up to `last` are those between the end of the kernel and PHYSTOP.  A page
    on the free list holds the link `run` to the next one, and 0 ends the list.  A null result is
    0.  A panic is reported in a result. */
module PageCode {
  import opened Bytes
  import opened PageModel
  import opened PageSpaces
  import opened PageCounts

  const KERNBASE: nat := 0x8000_0000

  /** The page number of PGROUNDUP(sz). */
  function Up(sz: nat): (p: nat) {
    (sz + PGSIZE - 1) / PGSIZE
  }

  lemma UpIs(sz: nat, p: nat)
    ensures p * PGSIZE < sz <==> p < Up(sz)
    ensures sz <= KERNBASE ==> Up(sz) <= USER
  {
    var q := sz + PGSIZE - 1;
    assert q == PGSIZE * (q / PGSIZE) + q % PGSIZE;
  }

  /** `memset(mem, 0, PGSIZE)`. */
  function ZeroPage(): (s: seq<byte>)
    ensures |s| == PGSIZE && forall i :: 0 <= i < PGSIZE ==> s[i] == 0
  {
    seq(PGSIZE, _ => 0)
  }

  /** The free list from `head`, through `run`. */
  ghost predicate Chain(head: nat, run: map<nat, nat>, free: seq<nat>)
    decreases |free|
  {
    if free == [] then head == 0 else head == free[0] && head in run && Chain(run[head], run, free[1..])
  }

  lemma {:induction false} ChainElsewhere(head: nat, run: map<nat, nat>, free: seq<nat>, v: nat, n: nat)
    requires Chain(head, run, free) && v !in free
    ensures Chain(head, run[v := n], free)
    decreases |free|
  {
    if free != [] { ChainElsewhere(run[head], run, free[1..], v, n); }
  }

  /** Every page is on the free list exactly once, or has exactly one owner. */
  ghost predicate Conserved(first: nat, last: nat, free: seq<nat>, m: Mem) {
    && 0 < first
    && (forall a, b :: 0 <= a < b < |free| ==> free[a] != free[b])
    && (forall x :: x in free ==> first <= x < last && Unused(m, x))
    && (forall x :: x in m.owner ==> first <= x < last)
    && (forall x: nat :: first <= x < last ==> x in free || x in m.owner)
    && m.tables.Keys <= m.owner.Keys && m.data.Keys <= m.owner.Keys
  }

  lemma Popped(first: nat, last: nat, head: nat, run: map<nat, nat>, free: seq<nat>, m: Mem)
    requires Chain(head, run, free) && Conserved(first, last, free, m)
    ensures head == 0 <==> free == []
    ensures free != [] ==> head == free[0] && head in run && Chain(run[head], run, free[1..]) && Unused(m, head)
  {
    if free != [] { assert free[0] in free; }
  }

  lemma Pushed(first: nat, last: nat, head: nat, run: map<nat, nat>, free: seq<nat>, m: Mem, v: nat)
    requires Chain(head, run, free) && Conserved(first, last, free, m) && v in m.owner
    ensures Chain(v, run[v := head], [v] + free) && Conserved(first, last, [v] + free, Drop(m, {v}))
  {
    ChainElsewhere(head, run, free, v, head);
    assert ([v] + free)[1..] == free;
    var w, f := Drop(m, {v}), [v] + free;
    forall a, b | 0 <= a < b < |f|
      ensures f[a] != f[b]
    {
      assert free[b - 1] in free;
    }
  }

  /** The page off the free list has an owner now. */
  lemma Taken(first: nat, last: nat, free: seq<nat>, m: Mem, w: Mem, x: nat)
    requires Conserved(first, last, free, m) && free != [] && x == free[0] && x in w.owner
    requires w.owner.Keys == m.owner.Keys + {x} && w.tables.Keys <= m.tables.Keys + {x}
    requires w.data.Keys <= m.data.Keys + {x}
    ensures Conserved(first, last, free[1..], w)
  {
    assert free[0] in free;
    forall y | y in free[1..]
      ensures first <= y < last && Unused(w, y)
    {
      var k :| 0 <= k < |free| - 1 && free[1..][k] == y;
      assert free[k + 1] == y && y in free && free[0] in free;
    }
    forall y: nat | first <= y < last
      ensures y in free[1..] || y in w.owner
    {
      if y in free && y != x {
        var k :| 0 <= k < |free| && free[k] == y;
        assert free[1..][k - 1] == y;
      }
    }
  }

  /** The owners are the same; so is what is free. */
  lemma Rewritten(first: nat, last: nat, free: seq<nat>, m: Mem, w: Mem)
    requires Conserved(first, last, free, m) && w.owner.Keys == m.owner.Keys
    requires w.tables.Keys <= m.tables.Keys && w.data.Keys <= m.data.Keys
    ensures Conserved(first, last, free, w)
  {
  }

  /** Before `freerange` gets to it, a page is in no use that page tables know of. */
  ghost function NotYetFree(first: nat, last: nat): (o: map<nat, Owner>)
    requires first <= last
    ensures forall x: nat :: x in o <==> first <= x < last
    ensures forall x :: x in o ==> o[x] == Loose
    decreases last - first
  {
    if first == last then map[] else NotYetFree(first + 1, last)[first := Loose]
  }

  /** How the attempt to add a user page ends; a page that could not be mapped is still taken. */
  datatype Growth = Grew | NoPage | NoTable(page: nat) | Remap

  class Memory {
    const first: nat
    const last: nat
    const kmap: seq<Kmap>
    var freelist: nat
    var run: map<nat, nat>
    var tables: map<nat, seq<Entry>>
    var data: map<nat, seq<byte>>
    ghost var owner: map<nat, Owner>
    ghost var free: seq<nat>

    ghost function Now(): (m: Mem)
      reads this`tables, this`data, this`owner
    {
      Mem(tables, data, owner)
    }

    ghost predicate Lists()
      reads this`freelist, this`run, this`free, this`tables, this`data, this`owner
    {
      Chain(freelist, run, free) && Conserved(first, last, free, Now())
    }

    ghost predicate Valid()
      reads this
    {
      Lists() && Good(Now()) && KmapOk(kmap)
    }

    /** `kinit1` and `kinit2`: `freerange` over all pages. */
    constructor (first: nat, last: nat, kmap: seq<Kmap>)
      requires 0 < first <= last && KmapOk(kmap)
      ensures Valid() && this.first == first && this.last == last && this.kmap == kmap
      ensures owner == map[] && |free| == last - first
    {
      this.first, this.last, this.kmap := first, last, kmap;
      freelist, run, tables, data := 0, map[], map[], map[];
      owner := NotYetFree(first, last);
      free := [];
      new;
      var p := first;
      while p < last
        invariant first <= p <= last && Lists() && |free| == p - first && tables == map[] && data == map[]
        invariant forall x: nat :: x in owner <==> p <= x < last
      {
        var panic := Kfree(p);
        p := p + 1;
      }
    }

    /** `kfree`; the panic is that the page is not between `end` and PHYSTOP, which an allocated
        page always is.  Freeing a page that is free is not detected. */
    method Kfree(v: nat) returns (panic: bool)
      requires Lists() && (first <= v < last ==> v in owner)
      modifies this`freelist, this`run, this`tables, this`data, this`owner, this`free
      ensures (panic <==> !(first <= v < last)) && (v in old(owner) ==> !panic) && Lists()
      ensures panic ==> Now() == old(Now()) && free == old(free)
      ensures !panic ==> Now() == Drop(old(Now()), {v}) && free == [v] + old(free)
    {
      if v < first || v >= last {
        return true;
      }
      Pushed(first, last, freelist, run, free, Now(), v);
      tables, data, owner := tables - {v}, data - {v}, owner - {v};
      run := run[v := freelist];
      freelist := v;
      free := [v] + free;
      panic := false;
    }

    /** `kalloc`.  The caller says at once what the page is for. */
    method Kalloc() returns (r: nat)
      requires Lists()
      modifies this`freelist, this`free
      ensures r == 0 <==> old(free) == []
      ensures r == 0 ==> freelist == old(freelist) && free == old(free)
      ensures r != 0 ==> r == old(free)[0] && free == old(free)[1..] && Chain(freelist, run, free) && Unused(Now(), r)
    {
      Popped(first, last, freelist, run, free, Now());
      r := freelist;
      if r != 0 {
        freelist := run[r];
        free := free[1..];
      }
    }

    /** `walkpgdir`: the page table for directory entry `i`, or 0. */
    method Walk(d: nat, i: nat, alloc: bool) returns (t: nat)
      requires Valid() && IsDir(Now(), d) && i < NENT
      modifies this`freelist, this`free, this`tables, this`owner
      ensures Valid()
      ensures At(old(Now()), d, i).p ==> t == At(old(Now()), d, i).ppn != 0 && Now() == old(Now()) && free == old(free)
      ensures t == 0 ==> Now() == old(Now()) && free == old(free) && !At(old(Now()), d, i).p && (alloc ==> free == [])
      ensures t != 0 ==> HasTable(Now(), d, i) && t == At(Now(), d, i).ppn
      ensures t != 0 && !At(old(Now()), d, i).p ==>
                && alloc && Unused(old(Now()), t) && Now() == AddTable(old(Now()), d, i, t)
                && old(free) != [] && free == old(free)[1..]
    {
      hide Good, Conserved, Chain;
      ghost var m := Now();
      var e := tables[d][i];
      if e.p {
        t := e.ppn;
        TableThere(first, last, free, m, d, i);
      } else {
        if !alloc {
          return 0;
        }
        t := Kalloc();
        if t == 0 {
          return;
        }
        TableAdded(m, d, i, t);
        Taken(first, last, old(free), m, AddTable(m, d, i, t), t);
        tables := tables[t := Zeros()];
        tables := tables[d := tables[d][i := Entry(t, true, true, true)]];
        owner := owner[t := Tab(d, i)];
      }
    }

    /** One round of the loop of `mappages`: page `v` of `d` is mapped to page `ppn`.  If that is a
        user page, page `ppn` has been allocated for it.  The panic is "remap".  `mid` is the
        memory once the page table is there. */
    method MapPage(d: nat, i: nat, j: nat, ppn: nat, w: bool, u: bool) returns (ok: bool, panic: bool, ghost mid: Mem)
      requires Valid() && IsDir(Now(), d) && i < NENT && j < NENT
      requires i < UDIR ==> ppn in owner && owner[ppn] == Loose && ppn in data && ppn !in tables
      modifies this`freelist, this`free, this`tables, this`owner
      ensures Valid() && (panic <==> Lookup(old(Now()), d, i, j).p)
      ensures panic ==> !ok && Now() == old(Now()) && free == old(free)
      ensures !ok && !panic ==> Now() == old(Now()) && free == old(free) == [] && !At(old(Now()), d, i).p
      ensures ok ==> DirsAre(old(Now()), Now(), d, {i}) && |free| + (if At(old(Now()), d, i).p then 0 else 1) == |old(free)|
      ensures ok ==>
                && HasTable(mid, d, i)
                && (mid == old(Now())
                    || (exists t :: Unused(old(Now()), t) && !At(old(Now()), d, i).p && mid == AddTable(old(Now()), d, i, t)))
                && (i < UDIR ==> CanMap(mid, d, i, j, ppn) && Now() == UserMap(mid, d, i, j, ppn, w, u))
                && (i >= UDIR ==> Now() == PutPte(mid, d, i, j, Entry(ppn, true, w, u)))
    {
      hide Good, Conserved, Chain;
      ghost var m := Now();
      ok, panic := false, false;
      var t := Walk(d, i, true);
      mid := Now();
      if t == 0 {
        return;
      }
      SameEntry(m, mid, d, i, j, t);
      if tables[t][j].p {
        panic := true;
        return;
      }
      if i < UDIR {
        assert CanMap(mid, d, i, j, ppn);
        UserMapKeeps(mid, d, i, j, ppn, w, u);
      } else {
        KernelMapKeeps(mid, d, i, j, Entry(ppn, true, w, u));
      }
      tables := tables[t := tables[t][j := Entry(ppn, true, w, u)]];
      if i < UDIR {
        owner := owner[ppn := User(d, i, j)];
      }
      Rewritten(first, last, free, mid, Now());
      OneDir(m, mid, Now(), d, i, j, t, Entry(ppn, true, w, u));
      ok := true;
    }

    /** `mappages` for a row of kernel mappings. */
    method Mappages(d: nat, k: Kmap, ghost ks: seq<Kmap>, ghost m: Mem) returns (ok: bool, ghost n: nat)
      requires Valid() && KmapOk(ks + [k]) && Kernelled(m, Now(), d, ks) && DirsAre(m, Now(), d, KernelDirs(ks))
      modifies this`freelist, this`free, this`tables, this`owner
      ensures Valid() && n <= k.n && (ok <==> n == k.n) && Kernelled(m, Now(), d, ks + [k.(n := n)])
      ensures Tally(m, Now(), d, KernelDirs(ks + [k.(n := n)]), |free|, |old(free)| + Missing(m, d, KernelDirs(ks)))
      ensures !ok ==> free == [] && !At(Now(), d, (k.virt + n) / NENT).p && (k.virt + n) / NENT < NENT
    {
      hide Good, Conserved, Chain, Kernelled, KernelEntry, KmapOk, Lookup, DirsAre, KernelDirs, Missing, Dirs;
      n := 0;
      KernelledRow(m, Now(), d, ks, k);
      RowDirs(ks, k, 0);
      NoDirs(k.virt);
      ghost var all := |free| + Missing(m, d, KernelDirs(ks));
      assert KernelDirs(ks) + {} == KernelDirs(ks);
      var a := k.virt;
      var pa := k.phys;
      var last := k.virt + k.n;
      while a < last
        invariant Valid() && n <= k.n && a == k.virt + n && pa == k.phys + n
        invariant Kernelled(m, Now(), d, ks + [k.(n := n)])
        invariant Tally(m, Now(), d, KernelDirs(ks + [k.(n := n)]), |free|, all)
      {
        ghost var w, mid := Now(), Now();
        ghost var i, j := a / NENT, a % NENT;
        KernelledNextAbsent(m, w, d, ks, k, n, a / NENT, a % NENT);
        KernelledFacts(m, w, d, ks + [k.(n := n)]);
        var panic;
        ok, panic, mid := MapPage(d, a / NENT, a % NENT, pa, k.w, false);
        if !ok {
          return;
        }
        if mid != w {
          var t :| Unused(w, t) && !At(w, d, i).p && mid == AddTable(w, d, i, t);
          KernelledTable(m, w, d, ks + [k.(n := n)], i, t);
        }
        KernelledMap(m, mid, d, ks, k, n, i, j);
        DirsNext(m, w, Now(), d, KernelDirs(ks + [k.(n := n)]), i);
        RowDirs(ks, k, n);
        a := a + 1;
        pa := pa + 1;
        n := n + 1;
      }
      ok := true;
    }

    /** The page of a user page that is mapped is freed, and its entry cleared. */
    method UnmapPage(d: nat, i: nat, j: nat, t: nat) returns (panic: bool)
      requires Valid() && CanUnmap(Now(), d, i, j) && t == At(Now(), d, i).ppn
      modifies this`freelist, this`run, this`free, this`tables, this`data, this`owner
      ensures !panic && Valid() && Now() == UserUnmap(old(Now()), d, i, j)
    {
      hide Good, Conserved, Chain;
      ghost var w := Now();
      EntryFacts(first, last, free, w, d, i, j);
      var pa := tables[t][j].ppn;
      if pa == 0 {
        return true;
      }
      UnmapKeeps(w, d, i, j);
      panic := Kfree(pa);
      UnmapOrder(w, d, i, j);
      Rewritten(first, last, free, Now(), UserUnmap(w, d, i, j));
      tables := tables[t := tables[t][j := ZeroEntry]];
    }

    /** `deallocuvm`: every user page from newsz to oldsz is unmapped and freed, whether or not the
        walk skips over it; the panic for a page at address 0 is unreachable. */
    method Deallocuvm(d: nat, oldsz: nat, newsz: nat) returns (panic: bool, r: nat)
      requires Valid() && IsDir(Now(), d) && oldsz <= KERNBASE
      modifies this`freelist, this`run, this`free, this`tables, this`data, this`owner
      ensures !panic && Valid()
      ensures newsz >= oldsz ==> r == oldsz && Now() == old(Now()) && free == old(free)
      ensures newsz < oldsz ==> r == newsz && Shrunk(old(Now()), Now(), d, Up(newsz), Up(oldsz))
    {
      hide Good, Conserved, Chain, Shrunk, Lookup, Up, UserUnmap;
      panic, r := false, oldsz;
      if newsz >= oldsz {
        return;
      }
      ghost var m, lo, hi := Now(), Up(newsz), Up(oldsz);
      UpMonotone(newsz, oldsz);
      ShrunkStart(m, d, lo);
      var p := Up(newsz);
      ghost var q := p;
      while p * PGSIZE < oldsz
        invariant 0 <= p && lo <= q <= hi <= USER && q == if p < hi then p else hi
        invariant !panic && Valid() && Shrunk(m, Now(), d, lo, q)
        decreases hi - p
      {
        UpIs(oldsz, p);
        ghost var w := Now();
        ShrunkFacts(m, w, d, lo, q);
        var i := p / NENT;
        var t := Walk(d, i, false);
        if t == 0 {
          q := if (i + 1) * NENT < hi then (i + 1) * NENT else hi;
          SkipTable(m, w, d, lo, p, q);
          p := (i + 1) * NENT - 1;
        } else {
          q := p + 1;
          var e := tables[t][p % NENT];
          EntryFacts(first, last, free, w, d, i, p % NENT);
          if e.p {
            ShrunkNext(m, w, d, lo, i, p % NENT);
            panic := UnmapPage(d, i, p % NENT, t);
            if panic {
              return;
            }
          } else {
            SkipPage(m, w, d, lo, i, p % NENT);
          }
        }
        p := p + 1;
      }
      UpIs(oldsz, p);
      r := newsz;
    }

    /** `freevm`: the directory and every page it owns are freed, each once. */
    method Freevm(d: nat) returns (panic: bool)
      requires Valid() && IsDir(Now(), d)
      modifies this`freelist, this`run, this`free, this`tables, this`data, this`owner
      ensures !panic && Valid() && Freed(old(Now()), Now(), d)
    {
      hide Good, Conserved, Chain, Shrunk, Lookup, Up, Freed, TabSet;
      ghost var m := Now();
      var r;
      panic, r := Deallocuvm(d, KERNBASE, 0);
      UpZero();
      ghost var w := Now();
      ShrunkFacts(m, w, d, 0, USER);
      NoUserLeft(m, w, d);
      SpaceDropped(w, d);
      ShrinkThenFree(m, w, Drop(w, TabSet(w, d, NENT) + {d}), d);
      FreedFacts(m, Drop(w, TabSet(w, d, NENT) + {d}), d);
      var i := 0;
      DropNothing(w, d);
      while i < NENT
        invariant i <= NENT && !panic && Lists() && Now() == Drop(w, TabSet(w, d, i))
      {
        TabSetStep(w, d, i);
        if tables[d][i].p {
          DropDrop(w, TabSet(w, d, i), tables[d][i].ppn);
          panic := Kfree(tables[d][i].ppn);
        }
        i := i + 1;
      }
      TabSetStep(w, d, NENT);
      DropDrop(w, TabSet(w, d, NENT), d);
      panic := Kfree(d);
    }

    /** `setupkvm`: a directory with the kernel mappings, or 0 with every page given back. */
    method Setupkvm() returns (d: nat)
      requires Valid()
      modifies this`freelist, this`run, this`free, this`tables, this`data, this`owner
      ensures Valid()
      ensures d == 0 ==> SameMem(old(Now()), Now())
      ensures d != 0 ==> NewSpace(old(Now()), Now(), d, kmap, [])
      ensures d != 0 <==> |old(free)| >= 1 + |KernelDirs(kmap)|
      ensures d != 0 ==> DirsExactly(Now(), d, KernelDirs(kmap)) && |free| + 1 + |KernelDirs(kmap)| == |old(free)|
    {
      hide Good, Conserved, Chain, Kernelled, Freed, KmapOk, NewSpace, KernelDirs, Missing, DirsAre, DirsExactly;
      ghost var m := Now();
      d := Kalloc();
      if d == 0 {
        return;
      }
      KernelledStart(m, d);
      NewDirKeeps(m, d);
      Taken(first, last, old(free), m, NewDir(m, d), d);
      tables, owner := tables[d := Zeros()], owner[d := Dir];
      ghost var n := Now();
      var k := 0;
      DirsStart(n, d);
      NoRows(kmap);
      while k < |kmap|
        invariant k <= |kmap| && Valid() && Kernelled(n, Now(), d, kmap[..k])
        invariant Tally(n, Now(), d, KernelDirs(kmap[..k]), |free|, |old(free)| - 1)
      {
        RowOk(kmap, k);
        var ok;
        ghost var done;
        ok, done := Mappages(d, kmap[k], kmap[..k], n);
        if !ok {
          ghost var w := Now();
          NotInDirs(n, w, d, KernelDirs(kmap[..k] + [kmap[k].(n := done)]), (kmap[k].virt + done) / NENT);
          RowsTooMany(kmap, k, done);
          NewDirTally(m, w, d, KernelDirs(kmap[..k] + [kmap[k].(n := done)]));
          KernelledFacts(n, w, d, kmap[..k] + [kmap[k].(n := done)]);
          KernelledIsNew(m, w, d, kmap[..k] + [kmap[k].(n := done)]);
          var panic := Freevm(d);
          SpaceGivenBack(m, w, Now(), d, kmap[..k] + [kmap[k].(n := done)], []);
          return 0;
        }
        assert kmap[k].(n := done) == kmap[k] && kmap[..k] + [kmap[k]] == kmap[..k + 1];
        k := k + 1;
      }
      assert kmap[..|kmap|] == kmap;
      NewDirTally(m, Now(), d, KernelDirs(kmap));
      KernelledIsNew(m, Now(), d, kmap);
    }

    /** What the loops of `allocuvm` and `copyuvm` have in common: `kalloc` a page, fill it, and
        `mappages` it as user page `p` of `d`. */
    method GrowPage(d: nat, p: nat, bytes: seq<byte>, w: bool, u: bool, ghost m: Mem, ghost lo: nat,
                    ghost c: seq<Content>, ghost all: nat) returns (r: Growth)
      requires Valid() && Extended(m, Now(), d, lo, c, {}) && p == lo + |c| < USER
      requires Spending(m, Now(), d, lo, p, |free|, all)
      modifies this`freelist, this`free, this`tables, this`data, this`owner
      ensures Valid()
      ensures r.NoPage? <==> old(free) == []
      ensures r.NoPage? ==> Now() == old(Now()) && free == old(free)
      ensures r.Remap? <==> old(free) != [] && IsMapped(m, d, p)
      ensures r.NoTable? ==>
                && |old(free)| == 1 && Unused(old(Now()), r.page) && Now() == Take(old(Now()), r.page, bytes)
                && !At(Now(), d, p / NENT).p && Extended(m, Now(), d, lo, c, {r.page})
      ensures r.Grew? ==>
                && Extended(m, Now(), d, lo, c + [Content(bytes, w, u)], {})
                && Spending(m, Now(), d, lo, p + 1, |free|, all)
    {
      hide Good, Conserved, Chain, Extended, Lookup, IsMapped, AddTable, UserMap, PutPte, Spending, DirsAre;
      ghost var v, wasFree := Now(), free;
      ExtendedFacts(m, v, d, lo, c, {});
      var x := Kalloc();
      if x == 0 {
        return NoPage;
      }
      ExtendTake(m, v, d, lo, c, x, bytes);
      Taken(first, last, wasFree, v, Take(v, x, bytes), x);
      data, owner := data[x := bytes], owner[x := Loose];
      ghost var v1, mid := Now(), Now();
      ExtendedFacts(m, v1, d, lo, c, {x});
      VpnOf(p);
      ExtendSame(m, v1, d, lo, c, {x}, p);
      var ok, panic;
      ok, panic, mid := MapPage(d, p / NENT, p % NENT, x, w, u);
      if panic {
        return Remap;
      }
      if !ok {
        return NoTable(x);
      }
      ExtendPage(m, v1, mid, d, lo, c, p / NENT, p % NENT, x, w, u);
      SpendNext(m, v, v1, Now(), d, lo, p, x, bytes, |wasFree|, |free|, all);
      r := Grew;
    }

    /** `allocuvm`: fresh zero pages up to newsz.  With `q` the first page of the range that is
        mapped already: if there is none, the call succeeds exactly if the free pages suffice,
        and otherwise the user mapping is as it was; if there is one, the call panics if it gets
        that far, and otherwise frees every page of the range. */
    method Allocuvm(d: nat, oldsz: nat, newsz: nat) returns (panic: bool, r: nat, ghost q: nat)
      requires Valid() && IsDir(Now(), d)
      modifies this`freelist, this`run, this`free, this`tables, this`data, this`owner
      ensures Valid()
      ensures newsz >= KERNBASE ==> !panic && r == 0 && Now() == old(Now())
      ensures newsz < KERNBASE && newsz < oldsz ==> !panic && r == oldsz && Now() == old(Now())
      ensures oldsz <= newsz < KERNBASE ==>
                Up(oldsz) <= Up(newsz) && q == First(old(Now()), d, Up(oldsz), Up(newsz), true)
      ensures oldsz <= newsz < KERNBASE && q == Up(newsz) && |old(free)| >= Needs(old(Now()), d, Up(oldsz), Up(newsz)) ==>
                && !panic && r == newsz && Extended(old(Now()), Now(), d, Up(oldsz), ZeroPages(Up(newsz) - Up(oldsz)), {})
                && forall v: nat :: Up(oldsz) <= v < Up(newsz) ==> Zeroed(old(Now()), Now(), d, v)
      ensures oldsz <= newsz < KERNBASE && q == Up(newsz) && |old(free)| < Needs(old(Now()), d, Up(oldsz), Up(newsz)) ==>
                !panic && r == 0 && Restored(old(Now()), Now(), d)
      ensures oldsz <= newsz < KERNBASE && q < Up(newsz) ==>
                && (panic <==> |old(free)| > Needs(old(Now()), d, Up(oldsz), q))
                && (!panic ==> r == 0 && Undone(old(Now()), Now(), d, Up(oldsz), Up(newsz)))
    {
      hide Good, Conserved, Chain, Shrunk, Extended, Restored, Undone, Lookup, IsMapped, Up, ZeroPages, Zeroed, Spending,
        Needs;
      panic, q := false, 0;
      if newsz >= KERNBASE {
        r := 0;
        return;
      }
      if newsz < oldsz {
        r := oldsz;
        return;
      }
      ghost var m, lo, hi := Now(), Up(oldsz), Up(newsz);
      UpMonotone(oldsz, newsz);
      q := First(m, d, lo, hi, true);
      ExtendedStart(m, d, lo);
      SpendStart(m, d, lo, |free|);
      NoZeroPages();
      var p := Up(oldsz);
      while p * PGSIZE < newsz
        invariant lo <= p <= q <= hi <= USER && Valid() && Extended(m, Now(), d, lo, ZeroPages(p - lo), {})
        invariant Spending(m, Now(), d, lo, p, |free|, |old(free)|) && !panic
      {
        UpIs(newsz, p);
        assert oldsz < newsz;
        ghost var w, c, wasFree := Now(), ZeroPages(p - lo), free;
        ExtendedFacts(m, w, d, lo, c, {});
        SpentUpTo(m, w, d, lo, p, q, hi, |wasFree|, |old(free)|);
        var g := GrowPage(d, p, ZeroPage(), true, true, m, lo, c, |old(free)|);
        if g.NoPage? {
          SpentPages(m, w, d, lo, p, hi, |old(free)|);
          panic, r := Deallocuvm(d, newsz, oldsz);
          GrowUndone(m, w, Now(), d, lo, c, hi);
          if q == hi { UndoneIsRestored(m, Now(), d, lo, hi); }
          r := 0;
          return;
        }
        if g.Remap? {
          panic, r := true, 0;
          return;
        }
        if g.NoTable? {
          ghost var w1 := Now();
          VpnOf(p);
          ExtendedFacts(m, w1, d, lo, c, {g.page});
          SpentTables(m, w, w1, d, lo, p, hi, g.page, ZeroPage(), |old(free)|);
          SpentTables(m, w, w1, d, lo, p, q, g.page, ZeroPage(), |old(free)|);
          panic, r := Deallocuvm(d, newsz, oldsz);
          GrowUndoneLoose(m, w1, Now(), d, lo, c, hi, g.page);
          UndoneFacts(m, Drop(Now(), {g.page}), d, lo, hi);
          panic := Kfree(g.page);
          if q == hi { UndoneIsRestored(m, Now(), d, lo, hi); }
          r := 0;
          return;
        }
        OneMoreZeroPage(p - lo);
        p := p + 1;
      }
      UpIs(newsz, p);
      SpentAll(m, Now(), d, lo, hi, |free|, |old(free)|);
      AllZeroed(m, Now(), d, lo, hi);
      r := newsz;
    }

    /** One round of the loop of `copyuvm`; `m` and `s` are the memory before and after `setupkvm`. */
    method CopyPage(d: nat, n: nat, p: nat, ghost m: Mem, ghost s: Mem, ghost hi: nat,
                    ghost all: nat) returns (panic: bool, bad: bool)
      requires Valid() && NewSpace(m, s, n, kmap, []) && Extended(s, Now(), n, 0, Pages(m, d, p), {})
      requires Absent(s, n, 0, USER) && IsDir(Now(), d) && p < USER && (IsMapped(m, d, p) ==> p < hi <= USER)
      requires Lookup(Now(), d, p / NENT, p % NENT) == Lookup(m, d, p / NENT, p % NENT)
      requires var x := Lookup(m, d, p / NENT, p % NENT).ppn;
               IsMapped(m, d, p) ==> x in m.data && x in data && data[x] == m.data[x]
      requires Spending(s, Now(), n, 0, p, |free|, all)
      modifies this`freelist, this`run, this`free, this`tables, this`data, this`owner
      ensures Valid() && (panic <==> !IsMapped(m, d, p)) && (panic ==> Spending(s, Now(), n, 0, p, |free|, all))
      ensures !panic ==> Extended(s, Now(), n, 0, Pages(m, d, if bad then p else p + 1), {})
      ensures !panic ==> if bad then all < Needs(s, n, 0, hi) else Spending(s, Now(), n, 0, p + 1, |free|, all)
    {
      hide Good, Conserved, Chain, Extended, NewSpace, Pages, Absent, Spending, Needs;
      ghost var w, c := Now(), Pages(m, d, p);
      var i, j := p / NENT, p % NENT;
      VpnOf(p);
      ExtendedFacts(s, w, n, 0, c, {});
      panic, bad := false, false;
      var t := Walk(d, i, false);
      if t == 0 {
        panic := true;
        return;
      }
      SameEntry(w, w, d, i, j, t);
      var e := tables[t][j];
      if !e.p {
        panic := true;
        return;
      }
      var bytes := data[e.ppn];
      AbsentPage(s, n, p);
      var g := GrowPage(n, p, bytes, e.w, e.u, s, 0, c, all);
      if g.NoPage? {
        SpentPages(s, w, n, 0, p, hi, all);
        bad := true;
        return;
      }
      if g.NoTable? {
        ghost var w1 := Now();
        ExtendedFacts(s, w1, n, 0, c, {g.page});
        SpentTables(s, w, w1, n, 0, p, hi, g.page, bytes, all);
        ExtendGiveBack(s, w1, n, 0, c, g.page);
        ExtendedFacts(s, Drop(w1, {g.page}), n, 0, c, {});
        panic := Kfree(g.page);
        bad := true;
        return;
      }
      OneMorePage(m, d, p, Content(bytes, e.w, e.u));
    }

    /** `copyuvm`: a child whose user pages below sz hold what those of `d` hold, with the same
        flags, on pages that were free; or 0 with every page given back.  With `q` the first
        page below sz that is not mapped, the call panics if it gets that far. */
    method Copyuvm(d: nat, sz: nat) returns (panic: bool, r: nat, ghost q: nat)
      requires Valid() && IsDir(Now(), d) && sz <= KERNBASE
      modifies this`freelist, this`run, this`free, this`tables, this`data, this`owner
      ensures Valid() && q == First(old(Now()), d, 0, Up(sz), false)
      ensures panic <==> q < Up(sz) && |old(free)| >= ChildNeeds(kmap, q)
      ensures !panic ==> (r != 0 <==> |old(free)| >= ChildNeeds(kmap, q))
      ensures !panic && r == 0 ==> SameMem(old(Now()), Now())
      ensures !panic && r != 0 ==> q == Up(sz) && NewSpace(old(Now()), Now(), r, kmap, Pages(old(Now()), d, Up(sz)))
      ensures !panic && r != 0 ==> forall v: nat :: v < Up(sz) ==> Copied(old(Now()), Now(), d, r, v)
    {
      hide Good, Conserved, Chain, Extended, Lookup, IsMapped, Up, NewSpace, Pages, PageAt, SameMem, Copied,
        Spending, Needs, ChildNeeds, DirsExactly, KernelDirs, KmapOk;
      ghost var m, hi := Now(), Up(sz);
      UpIs(sz, 0);
      panic, r, q := false, 0, First(m, d, 0, hi, false);
      var n := Setupkvm();
      ChildNeedsMore(kmap, q);
      if n == 0 {
        return;
      }
      ghost var s, all := Now(), |free|;
      ChildNeedsIs(s, n, kmap, q);
      SpendStart(s, n, 0, all);
      NewSpaceFacts(m, s, n, kmap, []);
      NewSpaceAbsent(m, s, n, kmap, USER);
      ExtendedStart(s, n, 0);
      NoPages(m, d);
      var i := 0;
      var bad := false;
      while i * PGSIZE < sz && !bad
        invariant i <= q <= hi <= USER && Valid() && Extended(s, Now(), n, 0, Pages(m, d, i), {}) && !panic
        invariant if bad then i < hi && all < Needs(s, n, 0, q) else Spending(s, Now(), n, 0, i, |free|, all)
        decreases hi - i, !bad
      {
        UpIs(sz, i);
        ghost var w := Now();
        VpnOf(i);
        ExtendedFacts(s, w, n, 0, Pages(m, d, i), {});
        ParentSame(m, s, w, n, d, kmap, Pages(m, d, i), i / NENT, i % NENT);
        MappedIs(m, d, i);
        panic, bad := CopyPage(d, n, i, m, s, q, all);
        if panic {
          SpentAll(s, Now(), n, 0, q, |free|, all);
          return;
        }
        if !bad {
          i := i + 1;
        }
      }
      UpIs(sz, i);
      if bad {
        ghost var w := Now();
        NewSpaceExtended(m, s, w, n, kmap, Pages(m, d, i));
        NewSpaceFacts(m, w, n, kmap, Pages(m, d, i));
        panic := Freevm(n);
        SpaceGivenBack(m, w, Now(), n, kmap, Pages(m, d, i));
        return;
      }
      NewSpaceExtended(m, s, Now(), n, kmap, Pages(m, d, i));
      SpentAll(s, Now(), n, 0, q, |free|, all);
      r := n;
      NewSpaceFacts(m, Now(), n, kmap, Pages(m, d, i));
      AllCopied(m, Now(), d, n, kmap, hi);
    }
  }

  lemma TableThere(first: nat, last: nat, free: seq<nat>, m: Mem, d: nat, i: nat)
    requires Good(m) && Conserved(first, last, free, m) && IsDir(m, d) && i < NENT && At(m, d, i).p
    ensures HasTable(m, d, i) && At(m, d, i).ppn != 0
  {
    TablesOf(m, d, i);
  }

  lemma TableAdded(m: Mem, d: nat, i: nat, t: nat)
    requires Good(m) && IsDir(m, d) && i < NENT && !At(m, d, i).p && Unused(m, t)
    ensures Good(AddTable(m, d, i, t)) && HasTable(AddTable(m, d, i, t), d, i)
    ensures At(AddTable(m, d, i, t), d, i).ppn == t
    ensures d != t
  {
    AddTableKeeps(m, d, i, t);
    AddTableAt(m, d, i, t, d, i);
  }

  lemma SameEntry(m: Mem, mid: Mem, d: nat, i: nat, j: nat, t: nat)
    requires Good(m) && IsDir(m, d) && i < NENT && j < NENT && HasTable(mid, d, i) && t == At(mid, d, i).ppn
    requires mid == m || (!At(m, d, i).p && Unused(m, t) && mid == AddTable(m, d, i, t))
    ensures mid.tables[t][j] == Lookup(mid, d, i, j) == Lookup(m, d, i, j)
  {
    if mid != m { AddTableLookup(m, d, i, t, d, i, j); }
  }

  lemma ChildNeedsMore(ks: seq<Kmap>, n: nat)
    ensures ChildNeeds(ks, n) >= 1 + |KernelDirs(ks)|
  {
  }

  lemma NoRows(ks: seq<Kmap>)
    ensures KernelDirs(ks[..0]) == {}
  {
  }

  lemma NotInDirs(m: Mem, w: Mem, d: nat, dirs: set<nat>, i: nat)
    requires DirsAre(m, w, d, dirs) && i < NENT && !At(w, d, i).p
    ensures i !in dirs
  {
  }

  lemma NoDirs(p: nat)
    ensures Dirs(p, p + 0) == {}
  {
  }

  /** Mapping one page uses one directory entry. */
  lemma OneDir(m: Mem, mid: Mem, w: Mem, d: nat, i: nat, j: nat, t: nat, e: Entry)
    requires Good(m) && IsDir(m, d) && i < NENT && j < NENT && HasTable(mid, d, i)
    requires (mid == m && At(m, d, i).p) || (!At(m, d, i).p && Unused(m, t) && mid == AddTable(m, d, i, t))
    requires w.tables == PutPte(mid, d, i, j, e).tables
    ensures DirsAre(m, w, d, {i})
  {
    forall k: nat | k < NENT
      ensures At(w, d, k).p <==> At(m, d, k).p || k in {i}
    {
      PutPteDirs(mid, d, i, j, e, d, k);
      assert At(w, d, k) == At(PutPte(mid, d, i, j, e), d, k);
      if mid != m { AddTableAt(m, d, i, t, d, k); }
    }
  }

  lemma KernelledFacts(m: Mem, w: Mem, d: nat, ks: seq<Kmap>)
    requires Kernelled(m, w, d, ks)
    ensures IsDir(w, d) && Good(w)
  {
  }

  lemma UpMonotone(a: nat, b: nat)
    requires a <= b
    ensures Up(a) <= Up(b) && (b <= KERNBASE ==> Up(b) <= USER)
  {
    UpIs(b, Up(b));
  }

  lemma UpZero()
    ensures Up(0) == 0 && Up(KERNBASE) == USER
  {
  }

  lemma ShrunkFacts(m: Mem, w: Mem, d: nat, lo: nat, q: nat)
    requires Shrunk(m, w, d, lo, q)
    ensures Good(w) && IsDir(w, d)
  {
  }

  /** All pages of an absent page table are absent. */
  lemma SkipTable(m: Mem, w: Mem, d: nat, lo: nat, p: nat, q: nat)
    requires Shrunk(m, w, d, lo, p) && p <= q <= (p / NENT + 1) * NENT && !At(w, d, p / NENT).p
    ensures Shrunk(m, w, d, lo, q)
  {
    forall i: nat, j: nat | i < UDIR && j < NENT && p <= Vpn(i, j) < q
      ensures !Lookup(w, d, i, j).p
    {
      VpnArith(p / NENT, 0, i, j);
    }
    ShrunkSkip(m, w, d, lo, p, q);
  }

  lemma SkipPage(m: Mem, w: Mem, d: nat, lo: nat, i: nat, j: nat)
    requires Shrunk(m, w, d, lo, Vpn(i, j)) && j < NENT && !Lookup(w, d, i, j).p
    ensures Shrunk(m, w, d, lo, Vpn(i, j) + 1)
  {
    forall k: nat, l: nat | k < UDIR && l < NENT && Vpn(i, j) <= Vpn(k, l) < Vpn(i, j) + 1
      ensures !Lookup(w, d, k, l).p
    {
      VpnArith(i, j, k, l);
    }
    ShrunkSkip(m, w, d, lo, Vpn(i, j), Vpn(i, j) + 1);
  }

  /** The entry in a page table that is there. */
  lemma EntryFacts(first: nat, last: nat, free: seq<nat>, w: Mem, d: nat, i: nat, j: nat)
    requires HasTable(w, d, i) && Conserved(first, last, free, w) && i < UDIR && j < NENT
    ensures w.tables[At(w, d, i).ppn][j] == Lookup(w, d, i, j)
    ensures Lookup(w, d, i, j).p ==> CanUnmap(w, d, i, j) && Lookup(w, d, i, j).ppn in w.owner && Lookup(w, d, i, j).ppn != 0
  {
    if Lookup(w, d, i, j).p { UnmapOwner(w, d, i, j); }
  }

  /** Freeing the page and then clearing its entry is the same as the other way round. */
  lemma UnmapOrder(w: Mem, d: nat, i: nat, j: nat)
    requires CanUnmap(w, d, i, j)
    ensures var t, x := At(w, d, i).ppn, Lookup(w, d, i, j).ppn;
            && t in Drop(w, {x}).tables && |Drop(w, {x}).tables[t]| == NENT
            && UserUnmap(w, d, i, j) == Drop(w, {x}).(tables := Drop(w, {x}).tables[t := Drop(w, {x}).tables[t][j := ZeroEntry]])
  {
    UnmapOwner(w, d, i, j);
    var t, x := At(w, d, i).ppn, Lookup(w, d, i, j).ppn;
    assert (w.tables - {x})[t := w.tables[t][j := ZeroEntry]] == w.tables[t := w.tables[t][j := ZeroEntry]] - {x};
  }

  lemma FreedFacts(m: Mem, w: Mem, d: nat)
    requires Freed(m, w, d)
    ensures Good(w)
  {
  }

  lemma DropNothing(w: Mem, d: nat)
    ensures w == Drop(w, TabSet(w, d, 0))
  {
    assert w.tables - {} == w.tables && w.data - {} == w.data && w.owner - {} == w.owner;
  }

  /** The directory is still there while its page tables are freed, and so is the next of them. */
  lemma TabSetStep(w: Mem, d: nat, i: nat)
    requires Good(w) && IsDir(w, d) && i <= NENT
    ensures var v := Drop(w, TabSet(w, d, i));
            d in v.owner && d in v.tables && v.tables[d] == w.tables[d] && |w.tables[d]| == NENT
    ensures i < NENT ==>
              TabSet(w, d, i + 1) == TabSet(w, d, i) + if w.tables[d][i].p then {w.tables[d][i].ppn} else {}
    ensures i < NENT && w.tables[d][i].p ==> w.tables[d][i].ppn in Drop(w, TabSet(w, d, i)).owner
    ensures i < NENT && !w.tables[d][i].p ==> TabSet(w, d, i + 1) == TabSet(w, d, i)
  {
    TabSetIs(w, d, i, d);
    if i < NENT && w.tables[d][i].p {
      TablesOf(w, d, i);
      TabSetIs(w, d, i, w.tables[d][i].ppn);
    }
  }

  lemma RowOk(ks: seq<Kmap>, k: nat)
    requires KmapOk(ks) && k < |ks|
    ensures KmapOk(ks[..k] + [ks[k]])
  {
    assert ks[..k] + [ks[k]] == ks[..k + 1];
  }

  lemma NewSpaceFacts(m: Mem, w: Mem, d: nat, ks: seq<Kmap>, c: seq<Content>)
    requires NewSpace(m, w, d, ks, c)
    ensures Good(w) && IsDir(w, d)
  {
  }

  lemma SpaceGivenBack(m: Mem, w: Mem, z: Mem, d: nat, ks: seq<Kmap>, c: seq<Content>)
    requires NewSpace(m, w, d, ks, c) && Freed(w, z, d)
    ensures SameMem(m, z)
  {
    NewSpaceFreed(m, w, z, d);
  }

  function ZeroPages(n: nat): (c: seq<Content>)
    ensures |c| == n && forall k :: 0 <= k < n ==> c[k] == Content(ZeroPage(), true, true)
  {
    if n == 0 then [] else ZeroPages(n - 1) + [Content(ZeroPage(), true, true)]
  }

  lemma AllZeroed(m: Mem, w: Mem, d: nat, lo: nat, hi: nat)
    requires lo <= hi <= USER && Extended(m, w, d, lo, ZeroPages(hi - lo), {})
    ensures forall v: nat :: lo <= v < hi ==> Zeroed(m, w, d, v)
  {
    hide Extended, Zeroed;
    forall v: nat | lo <= v < hi
      ensures Zeroed(m, w, d, v)
    {
      assert ZeroPages(hi - lo)[v - lo] == Content(ZeroPage(), true, true);
      ExtendedZeroed(m, w, d, lo, ZeroPages(hi - lo), v);
    }
  }

  lemma NoZeroPages()
    ensures ZeroPages(0) == []
  {
  }

  lemma OneMoreZeroPage(n: nat)
    ensures ZeroPages(n + 1) == ZeroPages(n) + [Content(ZeroPage(), true, true)]
  {
  }

  lemma ExtendedFacts(m: Mem, w: Mem, d: nat, lo: nat, c: seq<Content>, loose: set<nat>)
    requires Extended(m, w, d, lo, c, loose)
    ensures Good(w) && IsDir(w, d)
    ensures forall x :: x in loose ==> x in w.owner && w.owner[x] == Loose && x in w.data && x !in w.tables
  {
    forall x | x in loose
      ensures x in w.owner && w.owner[x] == Loose
    {
      assert NewOwner(w.owner[x], x, d, lo, lo + |c|, loose);
    }
  }

  lemma VpnOf(p: nat)
    ensures Vpn(p / NENT, p % NENT) == p && p % NENT < NENT && (p < USER ==> p / NENT < UDIR)
  {
  }

  lemma AbsentPage(m: Mem, d: nat, v: nat)
    requires Absent(m, d, 0, USER) && v < USER
    ensures !IsMapped(m, d, v)
  {
    VpnOf(v);
  }

  lemma UndoneFacts(m: Mem, w: Mem, d: nat, lo: nat, hi: nat)
    requires Undone(m, w, d, lo, hi)
    ensures Good(w)
  {
  }

  lemma MappedIs(m: Mem, d: nat, v: nat)
    ensures IsMapped(m, d, v) <==> Lookup(m, d, v / NENT, v % NENT).p
  {
  }

  lemma AllCopied(m: Mem, w: Mem, d: nat, r: nat, ks: seq<Kmap>, n: nat)
    requires NewSpace(m, w, r, ks, Pages(m, d, n)) && n <= USER && IsDir(m, d)
    requires First(m, d, 0, n, false) == n
    ensures forall v: nat :: v < n ==> Copied(m, w, d, r, v)
  {
    hide NewSpace, Pages, Copied, IsMapped;
    forall v: nat | v < n
      ensures Copied(m, w, d, r, v)
    {
      NewSpaceCopied(m, w, d, r, ks, n, v);
    }
  }

  lemma NoPages(m: Mem, d: nat)
    ensures Pages(m, d, 0) == []
  {
  }

  lemma OneMorePage(m: Mem, d: nat, p: nat, c: Content)
    requires c == PageAt(m, d, p)
    ensures Pages(m, d, p + 1) == Pages(m, d, p) + [c]
  {
  }
}
