/** What growing, copying and freeing an address space do, as relations between memories. */
module PageSpaces {
  import opened Bytes
  import opened PageModel

  /** What a user page holds, and how it may be used. */
  datatype Content = Content(bytes: seq<byte>, w: bool, u: bool)

  /** The user page is mapped with this content. */
  ghost predicate Holds(m: Mem, d: nat, i: nat, j: nat, c: Content) {
    var e := Lookup(m, d, i, j);
    e.p && e.ppn in m.data && c == Content(m.data[e.ppn], e.w, e.u)
  }

  // ---------------------------------------------------------------- growing

  /** The owner of a page that was allocated on the way from `m`. */
  ghost predicate NewOwner(o: Owner, x: nat, d: nat, lo: nat, hi: nat, loose: set<nat>) {
    if x in loose then o == Loose else (o.Tab? && o.dir == d) || InRange(o, d, lo, hi)
  }

  /** From `m` to `w`, directory `d` was given fresh user pages from page number `lo` on, with the
      contents `c`, and page tables for them.  The pages in `loose` were allocated and are not
      mapped yet. */
  ghost predicate Extended(m: Mem, w: Mem, d: nat, lo: nat, c: seq<Content>, loose: set<nat>) {
    && Good(m) && Good(w) && IsDir(m, d) && IsDir(w, d)
    && (forall x :: x in m.owner ==> SamePage(m, w, d, x))
    && (forall x :: x in w.owner && x !in m.owner ==> NewOwner(w.owner[x], x, d, lo, lo + |c|, loose))
    && (forall x :: x in loose ==> x !in m.owner && x in w.owner && x in w.data && x !in w.tables)
    && (forall i: nat, j: nat :: ExtendedEntry(m, w, d, i, j, lo, c))
  }

  ghost predicate ExtendedEntry(m: Mem, w: Mem, d: nat, i: nat, j: nat, lo: nat, c: seq<Content>) {
    if i < UDIR && j < NENT && lo <= Vpn(i, j) < lo + |c|
    then Lookup(w, d, i, j).ppn !in m.owner && Holds(w, d, i, j, c[Vpn(i, j) - lo])
    else Lookup(w, d, i, j) == Lookup(m, d, i, j)
  }

  lemma ExtendedStart(m: Mem, d: nat, lo: nat)
    requires Good(m) && IsDir(m, d)
    ensures Extended(m, m, d, lo, [], {})
  {
  }

  /** A page off the free list, filled with `bytes`. */
  ghost function Take(m: Mem, x: nat, bytes: seq<byte>): (w: Mem) {
    m.(owner := m.owner[x := Loose], data := m.data[x := bytes])
  }

  ghost predicate Unused(m: Mem, x: nat) {
    x !in m.owner && x !in m.tables && x !in m.data
  }

  lemma TakeLookup(m: Mem, x: nat, bytes: seq<byte>, f: nat, k: nat, l: nat)
    requires Unused(m, x)
    ensures IsDir(Take(m, x, bytes), f) <==> IsDir(m, f)
    ensures At(Take(m, x, bytes), f, k) == At(m, f, k)
    ensures Lookup(Take(m, x, bytes), f, k, l) == Lookup(m, f, k, l)
  {
    var w := Take(m, x, bytes);
    assert forall t, n: nat :: At(w, t, n) == At(m, t, n);
  }

  lemma TakeKeeps(m: Mem, x: nat, bytes: seq<byte>)
    requires Good(m) && Unused(m, x)
    ensures Good(Take(m, x, bytes))
  {
    var w := Take(m, x, bytes);
    forall y | y in w.owner
      ensures OwnerOk(w, y)
    {
      if y != x {
        assert OwnerOk(m, y);
        match m.owner[y] {
          case Dir =>
          case Tab(f, k) => TakeLookup(m, x, bytes, f, k, 0);
          case User(f, k, l) => TakeLookup(m, x, bytes, f, k, l);
          case Loose =>
        }
      }
    }
    forall f, k: nat | IsDir(w, f) && k < NENT
      ensures PdeOk(w, f, k)
    {
      TakeLookup(m, x, bytes, f, k, 0);
      assert PdeOk(m, f, k);
    }
    forall f, k: nat, l: nat | IsDir(w, f) && k < UDIR && l < NENT
      ensures PteOk(w, f, k, l)
    {
      TakeLookup(m, x, bytes, f, k, l);
      assert PteOk(m, f, k, l);
    }
  }

  lemma ExtendTake(m: Mem, w: Mem, d: nat, lo: nat, c: seq<Content>, x: nat, bytes: seq<byte>)
    requires Extended(m, w, d, lo, c, {}) && Unused(w, x)
    ensures Extended(m, Take(w, x, bytes), d, lo, c, {x})
  {
    TakeKeeps(w, x, bytes);
    var r := Take(w, x, bytes);
    TakeLookup(w, x, bytes, d, 0, 0);
    forall i: nat, j: nat
      ensures ExtendedEntry(m, r, d, i, j, lo, c)
    {
      assert ExtendedEntry(m, w, d, i, j, lo, c);
      TakeLookup(w, x, bytes, d, i, j);
    }
  }

  lemma ExtendTable(m: Mem, w: Mem, d: nat, lo: nat, c: seq<Content>, loose: set<nat>, i: nat, t: nat)
    requires Extended(m, w, d, lo, c, loose) && !At(w, d, i).p && i < NENT && Unused(w, t)
    ensures Extended(m, AddTable(w, d, i, t), d, lo, c, loose)
  {
    AddTableKeeps(w, d, i, t);
    var r := AddTable(w, d, i, t);
    forall x | x in m.owner
      ensures SamePage(m, r, d, x)
    {
      assert SamePage(m, w, d, x) && SamePage(w, r, d, x);
    }
    forall k: nat, j: nat
      ensures ExtendedEntry(m, r, d, k, j, lo, c)
    {
      assert ExtendedEntry(m, w, d, k, j, lo, c);
    }
  }

  lemma ExtendMap(m: Mem, w: Mem, d: nat, lo: nat, c: seq<Content>, i: nat, j: nat, x: nat, wr: bool, u: bool)
    requires Extended(m, w, d, lo, c, {x}) && Vpn(i, j) == lo + |c| && CanMap(w, d, i, j, x)
    ensures Extended(m, UserMap(w, d, i, j, x, wr, u), d, lo, c + [Content(w.data[x], wr, u)], {})
  {
    UserMapKeeps(w, d, i, j, x, wr, u);
    var r := UserMap(w, d, i, j, x, wr, u);
    var c' := c + [Content(w.data[x], wr, u)];
    UserMapLookup(w, d, i, j, x, wr, u, d, 0, 0);
    TablesOf(w, d, i);
    forall k: nat, l: nat
      ensures ExtendedEntry(m, r, d, k, l, lo, c')
    {
      assert ExtendedEntry(m, w, d, k, l, lo, c);
      UserMapLookup(w, d, i, j, x, wr, u, d, k, l);
      if l < NENT { VpnArith(i, j, k, l); }
    }
    forall y | y in m.owner
      ensures SamePage(m, r, d, y)
    {
      assert SamePage(m, w, d, y);
    }
  }

  /** The page is mapped, in a page table that may have been added for it. */
  lemma ExtendPage(m: Mem, w: Mem, mid: Mem, d: nat, lo: nat, c: seq<Content>, i: nat, j: nat, x: nat, wr: bool,
                   u: bool)
    requires Extended(m, w, d, lo, c, {x}) && Vpn(i, j) == lo + |c| && CanMap(mid, d, i, j, x) && x in w.data
    requires mid == w || (exists t :: Unused(w, t) && !At(w, d, i).p && mid == AddTable(w, d, i, t))
    ensures Extended(m, UserMap(mid, d, i, j, x, wr, u), d, lo, c + [Content(w.data[x], wr, u)], {})
  {
    if mid != w {
      var t :| Unused(w, t) && !At(w, d, i).p && mid == AddTable(w, d, i, t);
      ExtendTable(m, w, d, lo, c, {x}, i, t);
    }
    ExtendMap(m, mid, d, lo, c, i, j, x, wr, u);
  }

  /** The page could not be mapped and was freed. */
  lemma ExtendGiveBack(m: Mem, w: Mem, d: nat, lo: nat, c: seq<Content>, x: nat)
    requires Extended(m, w, d, lo, c, {x})
    ensures Extended(m, Drop(w, {x}), d, lo, c, {})
  {
    DropLooseKeeps(w, x);
    var r := Drop(w, {x});
    DropLookup(w, x, d, 0, 0);
    forall i: nat, j: nat
      ensures ExtendedEntry(m, r, d, i, j, lo, c)
    {
      assert ExtendedEntry(m, w, d, i, j, lo, c);
      DropLookup(w, x, d, i, j);
      assert Lookup(w, d, i, j).p && i < UDIR && j < NENT ==> PteOk(w, d, i, j);
    }
    forall y | y in m.owner
      ensures SamePage(m, r, d, y)
    {
      assert SamePage(m, w, d, y);
    }
  }

  lemma DropLookup(m: Mem, x: nat, f: nat, k: nat, l: nat)
    requires Good(m) && x in m.owner && m.owner[x] == Loose
    ensures IsDir(Drop(m, {x}), f) <==> IsDir(m, f)
    ensures IsDir(m, f) ==> At(Drop(m, {x}), f, k) == At(m, f, k) && Lookup(Drop(m, {x}), f, k, l) == Lookup(m, f, k, l)
  {
    if IsDir(m, f) && At(m, f, k).p { TablesOf(m, f, k); }
  }

  lemma DropLooseKeeps(m: Mem, x: nat)
    requires Good(m) && x in m.owner && m.owner[x] == Loose
    ensures Good(Drop(m, {x}))
  {
    var w := Drop(m, {x});
    forall y | y in w.owner
      ensures OwnerOk(w, y)
    {
      assert OwnerOk(m, y);
      match m.owner[y] {
        case Dir =>
        case Tab(f, k) => DropLookup(m, x, f, k, 0);
        case User(f, k, l) => DropLookup(m, x, f, k, l);
        case Loose =>
      }
    }
    forall f, k: nat | IsDir(w, f) && k < NENT
      ensures PdeOk(w, f, k)
    {
      DropLookup(m, x, f, k, 0);
      assert PdeOk(m, f, k);
    }
    forall f, k: nat, l: nat | IsDir(w, f) && k < UDIR && l < NENT
      ensures PteOk(w, f, k, l)
    {
      DropLookup(m, x, f, k, l);
      assert PteOk(m, f, k, l);
    }
  }

  // ---------------------------------------------------------------- failing to grow

  /** The user mapping of `d` is as it was; page tables may have been added. */
  ghost predicate Restored(m: Mem, w: Mem, d: nat) {
    && Good(w) && Grown(m, w, d)
    && forall i: nat, j: nat :: Lookup(w, d, i, j) == Lookup(m, d, i, j)
  }

  ghost predicate Absent(m: Mem, d: nat, lo: nat, hi: nat) {
    forall i: nat, j: nat :: i < UDIR && j < NENT && lo <= Vpn(i, j) < hi ==> !Lookup(m, d, i, j).p
  }

  /** The user pages of `d` from `lo` up to `hi` are gone, those that were there before among them;
      page tables may have been added. */
  ghost predicate Undone(m: Mem, w: Mem, d: nat, lo: nat, hi: nat) {
    && Good(m) && Good(w) && IsDir(m, d) && IsDir(w, d)
    && (forall x :: x in m.owner ==> if InRange(m.owner[x], d, lo, hi) then x !in w.owner else SamePage(m, w, d, x))
    && (forall x :: x in w.owner && x !in m.owner ==> w.owner[x].Tab? && w.owner[x].dir == d)
    && (forall i: nat, j: nat :: Lookup(w, d, i, j) == ShrunkEntry(m, d, i, j, lo, hi))
  }

  predicate IsMapped(m: Mem, d: nat, v: nat) {
    Lookup(m, d, v / NENT, v % NENT).p
  }

  /** The first page from `lo` on that is mapped, or is not, or `hi` if there is none. */
  ghost function First(m: Mem, d: nat, lo: nat, hi: nat, mapped: bool): (v: nat)
    requires lo <= hi
    ensures lo <= v <= hi && (forall u: nat :: lo <= u < v ==> IsMapped(m, d, u) != mapped)
    ensures v < hi ==> IsMapped(m, d, v) == mapped
    decreases hi - lo
  {
    if lo == hi || IsMapped(m, d, lo) == mapped then lo else First(m, d, lo + 1, hi, mapped)
  }

  /** With no page there before, nothing is lost. */
  lemma UndoneIsRestored(m: Mem, w: Mem, d: nat, lo: nat, hi: nat)
    requires Undone(m, w, d, lo, hi) && lo <= hi && First(m, d, lo, hi, true) == hi
    ensures Restored(m, w, d)
  {
    forall i: nat, j: nat | i < UDIR && j < NENT && lo <= Vpn(i, j) < hi
      ensures Lookup(m, d, i, j) == ZeroEntry
    {
      assert !IsMapped(m, d, Vpn(i, j));
      assert PteOk(m, d, i, j);
    }
    forall i: nat, j: nat
      ensures Lookup(w, d, i, j) == Lookup(m, d, i, j)
    {
      assert Lookup(w, d, i, j) == ShrunkEntry(m, d, i, j, lo, hi);
    }
    forall x | x in m.owner
      ensures SamePage(m, w, d, x)
    {
      assert OwnerOk(m, x);
    }
  }

  lemma GrowUndone(m: Mem, w: Mem, z: Mem, d: nat, lo: nat, c: seq<Content>, hi: nat)
    requires Extended(m, w, d, lo, c, {}) && Shrunk(w, z, d, lo, hi) && lo + |c| <= hi
    ensures Undone(m, z, d, lo, hi)
  {
    forall i: nat, j: nat
      ensures Lookup(z, d, i, j) == ShrunkEntry(m, d, i, j, lo, hi)
    {
      assert ExtendedEntry(m, w, d, i, j, lo, c);
      assert Lookup(z, d, i, j) == ShrunkEntry(w, d, i, j, lo, hi);
    }
    forall x | x in m.owner
      ensures if InRange(m.owner[x], d, lo, hi) then x !in z.owner else SamePage(m, z, d, x)
    {
      assert SamePage(m, w, d, x);
    }
    forall x | x in z.owner && x !in m.owner
      ensures z.owner[x].Tab? && z.owner[x].dir == d
    {
      assert x in w.owner && NewOwner(w.owner[x], x, d, lo, lo + |c|, {});
    }
  }

  // ---------------------------------------------------------------- a new address space

  ghost function NewDir(m: Mem, d: nat): (w: Mem) {
    m.(tables := m.tables[d := Zeros()], owner := m.owner[d := Dir])
  }

  lemma NewDirAt(m: Mem, d: nat, e: nat, k: nat, l: nat)
    requires Unused(m, d)
    ensures At(NewDir(m, d), e, k) == if e == d then ZeroEntry else At(m, e, k)
    ensures Good(m) && IsDir(m, e) ==> IsDir(NewDir(m, d), e) && Lookup(NewDir(m, d), e, k, l) == Lookup(m, e, k, l)
    ensures Lookup(NewDir(m, d), d, k, l) == ZeroEntry
  {
    if Good(m) && IsDir(m, e) && At(m, e, k).p { TablesOf(m, e, k); }
  }

  lemma NewDirKeeps(m: Mem, d: nat)
    requires Good(m) && Unused(m, d)
    ensures Good(NewDir(m, d)) && IsDir(NewDir(m, d), d)
  {
    var w := NewDir(m, d);
    forall y | y in w.owner
      ensures OwnerOk(w, y)
    {
      if y != d {
        assert OwnerOk(m, y);
        match m.owner[y] {
          case Dir =>
          case Tab(f, k) => NewDirAt(m, d, f, k, 0);
          case User(f, k, l) => NewDirAt(m, d, f, k, l);
          case Loose =>
        }
      }
    }
    forall f, k: nat | IsDir(w, f) && k < NENT
      ensures PdeOk(w, f, k)
    {
      NewDirAt(m, d, f, k, 0);
      assert f != d ==> PdeOk(m, f, k);
    }
    forall f, k: nat, l: nat | IsDir(w, f) && k < UDIR && l < NENT
      ensures PteOk(w, f, k, l)
    {
      NewDirAt(m, d, f, k, l);
      assert f != d ==> PteOk(m, f, k, l);
    }
  }

  /** A row of `kmap`: `n` pages from `virt` on are mapped to those from `phys` on. */
  datatype Kmap = Kmap(virt: nat, n: nat, phys: nat, w: bool)

  /** The entry that the rows of `kmap` give a virtual page. */
  function KernelEntry(ks: seq<Kmap>, v: nat): (e: Entry) {
    if ks == [] then ZeroEntry
    else
      var k := ks[|ks| - 1];
      if k.virt <= v < k.virt + k.n then Entry(k.phys + (v - k.virt), true, k.w, false) else KernelEntry(ks[..|ks| - 1], v)
  }

  ghost predicate KmapOk(ks: seq<Kmap>) {
    && (forall a :: 0 <= a < |ks| ==> USER <= ks[a].virt && 0 < ks[a].n && ks[a].virt + ks[a].n <= NENT * NENT)
    && (forall a, b :: 0 <= a < b < |ks| ==> ks[a].virt + ks[a].n <= ks[b].virt)
  }

  /** The table `kmap` of vm.c in pages, with the kernel's data at physical page `data`. */
  function KernelRows(data: nat): (ks: seq<Kmap>)
    requires 0x100 < data < 0xE000
  {
    [Kmap(0x80000, 0x100, 0, true),                     // I/O space
     Kmap(0x80100, data - 0x100, 0x100, false),         // kernel text and read-only data
     Kmap(0x80000 + data, 0xE000 - data, data, true),   // kernel data and memory up to PHYSTOP
     Kmap(0xFE000, 0x2000, 0xFE000, true)]              // devices
  }

  /** The rows lie above KERNBASE and do not overlap, so `setupkvm` never maps a page twice, and all
      of physical memory and the devices are mapped, for the kernel only. */
  lemma KernelRowsOk(data: nat, ppn: nat)
    requires 0x100 < data < 0xE000
    ensures KmapOk(KernelRows(data))
    ensures ppn < 0xE000 ==> KernelEntry(KernelRows(data), 0x80000 + ppn) == Entry(ppn, true, !(0x100 <= ppn < data), false)
    ensures 0xFE000 <= ppn < 0x100000 ==> KernelEntry(KernelRows(data), ppn) == Entry(ppn, true, true, false)
  {
    var ks := KernelRows(data);
    var one, two, three := [ks[0]], [ks[0], ks[1]], [ks[0], ks[1], ks[2]];
    assert ks[..|ks| - 1] == three && three[..|three| - 1] == two && two[..|two| - 1] == one;
    if ppn < 0xE000 {
      var v := 0x80000 + ppn;
      assert KernelEntry(ks, v) == KernelEntry(three, v);
      assert ppn < data ==> KernelEntry(three, v) == KernelEntry(two, v);
      assert ppn < 0x100 ==> KernelEntry(two, v) == KernelEntry(one, v);
    }
  }

  lemma {:induction false} AboveIsAbsent(ks: seq<Kmap>, v: nat)
    requires forall a :: 0 <= a < |ks| ==> ks[a].virt + ks[a].n <= v
    ensures KernelEntry(ks, v) == ZeroEntry
  {
    if ks != [] { AboveIsAbsent(ks[..|ks| - 1], v); }
  }

  /** Directory `d` has the kernel mappings `ks`, no user pages, and page tables for them. */
  ghost predicate Kernelled(m: Mem, w: Mem, d: nat, ks: seq<Kmap>) {
    && Good(w) && Grown(m, w, d)
    && forall i: nat, j: nat :: KernelledEntry(w, d, i, j, ks)
  }

  ghost predicate KernelledEntry(w: Mem, d: nat, i: nat, j: nat, ks: seq<Kmap>) {
    Lookup(w, d, i, j) == if UDIR <= i < NENT && j < NENT then KernelEntry(ks, Vpn(i, j)) else ZeroEntry
  }

  lemma KernelledStart(m: Mem, d: nat)
    requires Good(m) && Unused(m, d)
    ensures Kernelled(NewDir(m, d), NewDir(m, d), d, [])
  {
    NewDirKeeps(m, d);
    forall i: nat, j: nat
      ensures KernelledEntry(NewDir(m, d), d, i, j, [])
    {
      NewDirAt(m, d, d, i, j);
    }
  }

  lemma KernelledRow(m: Mem, w: Mem, d: nat, ks: seq<Kmap>, k: Kmap)
    requires Kernelled(m, w, d, ks)
    ensures Kernelled(m, w, d, ks + [k.(n := 0)])
  {
    var ks' := ks + [k.(n := 0)];
    assert ks'[..|ks|] == ks;
    forall i: nat, j: nat
      ensures KernelledEntry(w, d, i, j, ks')
    {
      assert KernelledEntry(w, d, i, j, ks);
    }
  }

  /** The next page of a row is not mapped yet. */
  lemma KernelledNextAbsent(m: Mem, w: Mem, d: nat, ks: seq<Kmap>, k: Kmap, n: nat, i: nat, j: nat)
    requires Kernelled(m, w, d, ks + [k.(n := n)]) && KmapOk(ks + [k]) && n < k.n && Vpn(i, j) == k.virt + n && j < NENT
    ensures UDIR <= i < NENT && Lookup(w, d, i, j) == ZeroEntry
  {
    var ks' := ks + [k.(n := n)];
    assert USER <= (ks + [k])[|ks|].virt && (ks + [k])[|ks|].virt + (ks + [k])[|ks|].n <= NENT * NENT;
    assert KernelledEntry(w, d, i, j, ks');
    assert ks'[..|ks|] == ks;
    forall a | 0 <= a < |ks|
      ensures ks[a].virt + ks[a].n <= Vpn(i, j)
    {
      assert (ks + [k])[a] == ks[a] && (ks + [k])[|ks|] == k;
    }
    AboveIsAbsent(ks, Vpn(i, j));
  }

  lemma KernelledTable(m: Mem, w: Mem, d: nat, ks: seq<Kmap>, i: nat, t: nat)
    requires Kernelled(m, w, d, ks) && i < NENT && !At(w, d, i).p && Unused(w, t)
    ensures Kernelled(m, AddTable(w, d, i, t), d, ks)
  {
    AddTableKeeps(w, d, i, t);
    var r := AddTable(w, d, i, t);
    GrownTrans(m, w, r, d);
    forall k: nat, j: nat
      ensures KernelledEntry(r, d, k, j, ks)
    {
      assert KernelledEntry(w, d, k, j, ks);
    }
  }

  lemma GrownTrans(m: Mem, w: Mem, r: Mem, d: nat)
    requires Grown(m, w, d) && Grown(w, r, d)
    ensures Grown(m, r, d)
  {
    forall x | x in m.owner
      ensures SamePage(m, r, d, x)
    {
      assert SamePage(m, w, d, x) && SamePage(w, r, d, x);
    }
    forall x | x in r.owner && x !in m.owner
      ensures r.owner[x].Tab? && r.owner[x].dir == d
    {
      assert x in w.owner ==> SamePage(w, r, d, x);
    }
  }

  lemma KernelledMap(m: Mem, w: Mem, d: nat, ks: seq<Kmap>, k: Kmap, n: nat, i: nat, j: nat)
    requires Kernelled(m, w, d, ks + [k.(n := n)]) && Vpn(i, j) == k.virt + n && UDIR <= i < NENT && j < NENT
    requires HasTable(w, d, i)
    ensures Kernelled(m, PutPte(w, d, i, j, Entry(k.phys + n, true, k.w, false)), d, ks + [k.(n := n + 1)])
  {
    var e := Entry(k.phys + n, true, k.w, false);
    var r := PutPte(w, d, i, j, e);
    KernelMapKeeps(w, d, i, j, e);
    GrownTrans(m, w, r, d);
    var ks', ks'' := ks + [k.(n := n)], ks + [k.(n := n + 1)];
    assert ks'[..|ks|] == ks && ks''[..|ks|] == ks;
    forall f: nat, l: nat
      ensures KernelledEntry(r, d, f, l, ks'')
    {
      assert KernelledEntry(w, d, f, l, ks');
      PutPteLookup(w, d, i, j, e, d, f, l);
      if l < NENT { VpnArith(i, j, f, l); }
    }
  }

  // ---------------------------------------------------------------- freeing an address space

  /** From `m` to `w`, directory `d` and every page it owned were freed, and nothing else. */
  ghost predicate Freed(m: Mem, w: Mem, d: nat) {
    && Good(m) && Good(w) && IsDir(m, d)
    && (forall x :: x in m.owner ==> if Mine(m.owner[x], x, d) then x !in w.owner else SamePage(m, w, d, x))
    && (forall x :: x in w.owner ==> x in m.owner)
  }

  /** The page tables of the first `k` directory entries. */
  ghost function TabSet(m: Mem, d: nat, k: nat): (s: set<nat>) {
    if k == 0 then {} else TabSet(m, d, k - 1) + if At(m, d, k - 1).p then {At(m, d, k - 1).ppn} else {}
  }

  lemma {:induction false} TabSetIs(m: Mem, d: nat, k: nat, x: nat)
    requires Good(m) && IsDir(m, d) && k <= NENT
    ensures x in TabSet(m, d, k) <==> x in m.owner && m.owner[x].Tab? && m.owner[x].dir == d && m.owner[x].i < k
  {
    if x in m.owner { assert OwnerOk(m, x); }
    if k > 0 {
      TabSetIs(m, d, k - 1, x);
      if At(m, d, k - 1).p { TablesOf(m, d, k - 1); }
    }
  }

  lemma DropDrop(m: Mem, s: set<nat>, x: nat)
    ensures Drop(Drop(m, s), {x}) == Drop(m, s + {x})
  {
    assert m.tables - s - {x} == m.tables - (s + {x});
    assert m.data - s - {x} == m.data - (s + {x});
    assert m.owner - s - {x} == m.owner - (s + {x});
  }

  /** With no user pages left, dropping the tables and the directory frees all that `d` owned. */
  lemma SpaceDropped(m: Mem, d: nat)
    requires Good(m) && IsDir(m, d)
    requires forall x :: x in m.owner ==> !(m.owner[x].User? && m.owner[x].dir == d)
    ensures Freed(m, Drop(m, TabSet(m, d, NENT) + {d}), d)
  {
    var s := TabSet(m, d, NENT) + {d};
    var w := Drop(m, s);
    forall x | x in m.owner
      ensures x in s <==> Mine(m.owner[x], x, d)
    {
      TabSetIs(m, d, NENT, x);
      assert OwnerOk(m, x);
    }
    forall x | x in w.owner
      ensures OwnerOk(w, x)
    {
      DroppedOwner(m, s, d, x);
    }
    forall f, k: nat | IsDir(w, f) && k < NENT
      ensures PdeOk(w, f, k)
    {
      DroppedLookup(m, s, d, f, k, 0);
    }
    forall f, k: nat, l: nat | IsDir(w, f) && k < UDIR && l < NENT
      ensures PteOk(w, f, k, l)
    {
      DroppedLookup(m, s, d, f, k, l);
      assert PteOk(m, f, k, l);
    }
  }

  lemma DroppedLookup(m: Mem, s: set<nat>, d: nat, f: nat, k: nat, l: nat)
    requires Good(m) && IsDir(m, d) && (forall x :: x in m.owner ==> (x in s <==> Mine(m.owner[x], x, d)))
    requires f != d && IsDir(m, f)
    ensures IsDir(Drop(m, s), f) && At(Drop(m, s), f, k) == At(m, f, k)
    ensures Lookup(Drop(m, s), f, k, l) == Lookup(m, f, k, l)
    ensures k < NENT ==> PdeOk(Drop(m, s), f, k)
  {
    if At(m, f, k).p { TablesOf(m, f, k); }
    assert k < NENT ==> PdeOk(m, f, k);
  }

  lemma DroppedOwner(m: Mem, s: set<nat>, d: nat, x: nat)
    requires Good(m) && IsDir(m, d) && (forall y :: y in m.owner ==> (y in s <==> Mine(m.owner[y], y, d)))
    requires x in m.owner && x !in s
    ensures OwnerOk(Drop(m, s), x)
  {
    assert OwnerOk(m, x);
    match m.owner[x] {
      case Dir =>
      case Tab(f, k) => DroppedLookup(m, s, d, f, k, 0);
      case User(f, k, l) => DroppedLookup(m, s, d, f, k, l);
      case Loose =>
    }
  }

  lemma ShrinkThenFree(m: Mem, w: Mem, z: Mem, d: nat)
    requires Shrunk(m, w, d, 0, USER) && Freed(w, z, d)
    ensures Freed(m, z, d)
  {
    forall x | x in m.owner
      ensures if Mine(m.owner[x], x, d) then x !in z.owner else SamePage(m, z, d, x)
    {
      assert OwnerOk(m, x);
    }
  }

  lemma NoUserLeft(m: Mem, w: Mem, d: nat)
    requires Shrunk(m, w, d, 0, USER)
    ensures forall x :: x in w.owner ==> !(w.owner[x].User? && w.owner[x].dir == d)
  {
    forall x | x in w.owner
      ensures !(w.owner[x].User? && w.owner[x].dir == d)
    {
      assert OwnerOk(w, x);
      assert OwnerOk(m, x);
    }
  }

  /** Everything is as it was: all pages allocated on the way have been given back. */
  ghost predicate SameMem(m: Mem, w: Mem) {
    && w.owner == m.owner
    && (forall x :: x in m.owner && x in m.tables ==> x in w.tables && w.tables[x] == m.tables[x])
    && (forall x :: x in m.owner && x in m.data ==> x in w.data && w.data[x] == m.data[x])
  }

  /** A new address space that is freed again leaves no trace. */
  lemma NewSpaceFreed(m: Mem, w: Mem, z: Mem, d: nat)
    requires Good(m) && d !in m.owner && (forall x :: x in m.owner ==> SamePage(m, w, d, x))
    requires (forall x :: x in w.owner && x !in m.owner ==> Mine(w.owner[x], x, d)) && Freed(w, z, d)
    ensures SameMem(m, z)
  {
    forall x | x in m.owner
      ensures x in z.owner && SamePage(m, z, d, x) && SamePage(m, w, d, x) && !Mine(m.owner[x], x, d)
    {
      assert OwnerOk(m, x);
    }
    assert z.owner == m.owner;
  }

  lemma GrowUndoneLoose(m: Mem, w: Mem, z: Mem, d: nat, lo: nat, c: seq<Content>, hi: nat, x: nat)
    requires Extended(m, w, d, lo, c, {x}) && Shrunk(w, z, d, lo, hi) && lo + |c| <= hi
    ensures x in z.owner && z.owner[x] == Loose && Undone(m, Drop(z, {x}), d, lo, hi)
  {
    assert x in w.owner && NewOwner(w.owner[x], x, d, lo, lo + |c|, {x}) && SamePage(w, z, d, x);
    DropLooseKeeps(z, x);
    var r := Drop(z, {x});
    DropLookup(z, x, d, 0, 0);
    forall i: nat, j: nat
      ensures Lookup(r, d, i, j) == ShrunkEntry(m, d, i, j, lo, hi)
    {
      assert ExtendedEntry(m, w, d, i, j, lo, c);
      assert Lookup(z, d, i, j) == ShrunkEntry(w, d, i, j, lo, hi);
      DropLookup(z, x, d, i, j);
    }
    forall y | y in m.owner
      ensures if InRange(m.owner[y], d, lo, hi) then y !in r.owner else SamePage(m, r, d, y)
    {
      assert SamePage(m, w, d, y);
    }
    forall y | y in r.owner && y !in m.owner
      ensures r.owner[y].Tab? && r.owner[y].dir == d
    {
      assert y in w.owner && NewOwner(w.owner[y], y, d, lo, lo + |c|, {x});
    }
  }

  /** Pages further up are what they were. */
  lemma ExtendSame(m: Mem, w: Mem, d: nat, lo: nat, c: seq<Content>, loose: set<nat>, v: nat)
    requires Extended(m, w, d, lo, c, loose) && lo + |c| <= v
    ensures Lookup(w, d, v / NENT, v % NENT).p == IsMapped(m, d, v)
  {
    assert ExtendedEntry(m, w, d, v / NENT, v % NENT, lo, c);
  }

  // ---------------------------------------------------------------- a space for a child

  /** From `m` to `w`, a new directory `d` with the kernel mappings and the user pages `c` was made
      of fresh pages; nothing else changed. */
  ghost predicate NewSpace(m: Mem, w: Mem, d: nat, ks: seq<Kmap>, c: seq<Content>) {
    && Good(m) && Good(w) && d !in m.owner && IsDir(w, d)
    && (forall x :: x in m.owner ==> SamePage(m, w, d, x))
    && (forall x :: x in w.owner && x !in m.owner ==> Mine(w.owner[x], x, d))
    && (forall i: nat, j: nat :: NewSpaceEntry(m, w, d, i, j, ks, c))
  }

  ghost predicate NewSpaceEntry(m: Mem, w: Mem, d: nat, i: nat, j: nat, ks: seq<Kmap>, c: seq<Content>) {
    if i < UDIR && j < NENT && Vpn(i, j) < |c| then Lookup(w, d, i, j).ppn !in m.owner && Holds(w, d, i, j, c[Vpn(i, j)])
    else Lookup(w, d, i, j) == if UDIR <= i < NENT && j < NENT then KernelEntry(ks, Vpn(i, j)) else ZeroEntry
  }

  lemma KernelledIsNew(m: Mem, w: Mem, d: nat, ks: seq<Kmap>)
    requires Good(m) && Unused(m, d) && Kernelled(NewDir(m, d), w, d, ks)
    ensures NewSpace(m, w, d, ks, [])
  {
    var n := NewDir(m, d);
    forall x | x in m.owner
      ensures SamePage(m, w, d, x)
    {
      assert SamePage(n, w, d, x);
    }
    assert SamePage(n, w, d, d);
    forall i: nat, j: nat
      ensures NewSpaceEntry(m, w, d, i, j, ks, [])
    {
      assert KernelledEntry(w, d, i, j, ks);
    }
  }

  lemma NewSpaceExtended(m: Mem, n: Mem, w: Mem, d: nat, ks: seq<Kmap>, c: seq<Content>)
    requires NewSpace(m, n, d, ks, []) && Extended(n, w, d, 0, c, {})
    ensures NewSpace(m, w, d, ks, c)
  {
    forall x | x in m.owner
      ensures SamePage(m, w, d, x)
    {
      assert SamePage(m, n, d, x) && SamePage(n, w, d, x);
    }
    forall x | x in w.owner && x !in m.owner
      ensures Mine(w.owner[x], x, d)
    {
      if x in n.owner { assert SamePage(n, w, d, x); } else { assert NewOwner(w.owner[x], x, d, 0, |c|, {}); }
    }
    forall i: nat, j: nat
      ensures NewSpaceEntry(m, w, d, i, j, ks, c)
    {
      assert NewSpaceEntry(m, n, d, i, j, ks, []);
      assert ExtendedEntry(n, w, d, i, j, 0, c);
      if Lookup(w, d, i, j).ppn in m.owner { assert SamePage(m, n, d, Lookup(w, d, i, j).ppn); }
    }
  }

  lemma NewSpaceAbsent(m: Mem, n: Mem, d: nat, ks: seq<Kmap>, hi: nat)
    requires NewSpace(m, n, d, ks, [])
    ensures Absent(n, d, 0, hi)
  {
    forall i: nat, j: nat | i < UDIR && j < NENT && 0 <= Vpn(i, j) < hi
      ensures !Lookup(n, d, i, j).p
    {
      assert NewSpaceEntry(m, n, d, i, j, ks, []);
    }
  }

  /** What the user page `v` of `d` holds. */
  ghost function PageAt(m: Mem, d: nat, v: nat): (c: Content) {
    var e := Lookup(m, d, v / NENT, v % NENT);
    Content(if e.ppn in m.data then m.data[e.ppn] else [], e.w, e.u)
  }

  /** What the first `n` user pages hold. */
  ghost function Pages(m: Mem, d: nat, n: nat): (c: seq<Content>)
    ensures |c| == n && forall v :: 0 <= v < n ==> c[v] == PageAt(m, d, v)
  {
    if n == 0 then [] else Pages(m, d, n - 1) + [PageAt(m, d, n - 1)]
  }

  /** User page `v` of `d` is writable, on a page that was free in `m`, and holds zeros. */
  ghost predicate Zeroed(m: Mem, w: Mem, d: nat, v: nat) {
    var e := Lookup(w, d, v / NENT, v % NENT);
    && e.p && e.w && e.u && At(w, d, v / NENT).w && At(w, d, v / NENT).u && e.ppn !in m.owner && e.ppn in w.data
    && AllZero(w.data[e.ppn])
  }

  ghost predicate AllZero(bytes: seq<byte>) {
    |bytes| == PGSIZE && forall i :: 0 <= i < PGSIZE ==> bytes[i] == 0
  }

  lemma ExtendedZeroed(m: Mem, w: Mem, d: nat, lo: nat, c: seq<Content>, v: nat)
    requires Extended(m, w, d, lo, c, {}) && lo <= v < lo + |c| && v < USER && c[v - lo].w && c[v - lo].u
    requires AllZero(c[v - lo].bytes)
    ensures Zeroed(m, w, d, v)
  {
    var i, j := v / NENT, v % NENT;
    assert Vpn(i, j) == v && i < UDIR;
    assert ExtendedEntry(m, w, d, i, j, lo, c);
    assert PdeOk(w, d, i);
  }

  /** User page `v` of the child `r` is on a page that was free in `m`, with the flags and the bytes of
      that of `d`. */
  ghost predicate Copied(m: Mem, w: Mem, d: nat, r: nat, v: nat) {
    var e, f := Lookup(m, d, v / NENT, v % NENT), Lookup(w, r, v / NENT, v % NENT);
    && e.p && f.p && f.w == e.w && f.u == e.u && f.ppn !in m.owner
    && e.ppn in m.data && f.ppn in w.data && w.data[f.ppn] == m.data[e.ppn]
  }

  lemma NewSpaceCopied(m: Mem, w: Mem, d: nat, r: nat, ks: seq<Kmap>, n: nat, v: nat)
    requires NewSpace(m, w, r, ks, Pages(m, d, n)) && v < n <= USER && IsDir(m, d) && IsMapped(m, d, v)
    ensures Copied(m, w, d, r, v)
  {
    var i, j := v / NENT, v % NENT;
    assert Vpn(i, j) == v && i < UDIR;
    assert NewSpaceEntry(m, w, r, i, j, ks, Pages(m, d, n));
    assert PteOk(m, d, i, j);
    assert OwnerOk(m, Lookup(m, d, i, j).ppn);
  }

  /** While the child grows, the parent's page is what it was. */
  lemma ParentSame(m: Mem, n: Mem, w: Mem, d: nat, p: nat, ks: seq<Kmap>, c: seq<Content>, i: nat, j: nat)
    requires NewSpace(m, n, d, ks, []) && Extended(n, w, d, 0, c, {}) && IsDir(m, p) && i < UDIR && j < NENT
    ensures IsDir(w, p) && At(w, p, i) == At(m, p, i) && Lookup(w, p, i, j) == Lookup(m, p, i, j)
    ensures Lookup(m, p, i, j).p ==>
              var x := Lookup(m, p, i, j).ppn; x in m.data && x in w.data && w.data[x] == m.data[x]
  {
    assert SamePage(m, n, d, p) && SamePage(n, w, d, p);
    if At(m, p, i).p {
      TablesOf(m, p, i);
      var t := At(m, p, i).ppn;
      assert SamePage(m, n, d, t) && SamePage(n, w, d, t);
      if Lookup(m, p, i, j).p {
        assert PteOk(m, p, i, j);
        var x := Lookup(m, p, i, j).ppn;
        assert OwnerOk(m, x);
        assert SamePage(m, n, d, x) && SamePage(n, w, d, x);
      }
    }
  }

  /** Whatever happens to `d`, as long as pages that are not its own stay the same, every other
      address space maps the same pages with the same contents. */
  lemma OthersUnseen(m: Mem, w: Mem, d: nat, e: nat, i: nat, j: nat)
    requires Good(m) && (IsDir(m, d) || d !in m.owner) && IsDir(m, e) && e != d && i < UDIR && j < NENT
    requires forall x :: x in m.owner && !Mine(m.owner[x], x, d) ==> SamePage(m, w, d, x)
    ensures IsDir(w, e) && Lookup(w, e, i, j) == Lookup(m, e, i, j)
    ensures Lookup(m, e, i, j).p ==>
              var x := Lookup(m, e, i, j).ppn; x in m.data && x in w.data && w.data[x] == m.data[x]
  {
    assert SamePage(m, w, d, e);
    if At(m, e, i).p {
      TablesOf(m, e, i);
      assert SamePage(m, w, d, At(m, e, i).ppn);
    }
    if Lookup(m, e, i, j).p {
      assert PteOk(m, e, i, j);
      assert OwnerOk(m, Lookup(m, e, i, j).ppn);
    }
  }
}
