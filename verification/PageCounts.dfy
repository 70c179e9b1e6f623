/** How many pages an operation on an address space takes: the pages it maps, and a page table for
    each directory entry that it is the first to use. */
module PageCounts {
  import opened Bytes
  import opened Common
  import opened PageModel
  import opened PageSpaces

  /** The directory entries in use. */
  ghost function Pdes(m: Mem, d: nat): (s: set<nat>) {
    set i: nat | i < NENT && At(m, d, i).p
  }

  /** The directory entries that cover the virtual pages from `lo` up to `hi`. */
  ghost function Dirs(lo: nat, hi: nat): (s: set<nat>) {
    if hi <= lo then {} else Dirs(lo, hi - 1) + {(hi - 1) / NENT}
  }

  /** ... and those that cover the rows of `kmap`. */
  ghost function KernelDirs(ks: seq<Kmap>): (s: set<nat>) {
    if ks == [] then {}
    else KernelDirs(ks[..|ks| - 1]) + Dirs(ks[|ks| - 1].virt, ks[|ks| - 1].virt + ks[|ks| - 1].n)
  }

  /** The page tables that `d` lacks for the directory entries `dirs`. */
  ghost function Missing(m: Mem, d: nat, dirs: set<nat>): (n: nat) {
    |dirs - Pdes(m, d)|
  }

  /** From `m` to `w`, the directory entries of `d` that came into use are those of `dirs`. */
  ghost predicate DirsAre(m: Mem, w: Mem, d: nat, dirs: set<nat>) {
    forall i: nat :: i < NENT ==> (At(w, d, i).p <==> At(m, d, i).p || i in dirs)
  }

  lemma DirsStart(m: Mem, d: nat)
    ensures DirsAre(m, m, d, {}) && Missing(m, d, {}) == 0
  {
  }

  /** Using one more directory entry takes a page exactly when it has no page table. */
  lemma DirsNext(m: Mem, w: Mem, x: Mem, d: nat, dirs: set<nat>, i: nat)
    requires i < NENT && DirsAre(m, w, d, dirs) && DirsAre(w, x, d, {i})
    ensures DirsAre(m, x, d, dirs + {i})
    ensures Missing(m, d, dirs + {i}) == Missing(m, d, dirs) + if At(w, d, i).p then 0 else 1
  {
    hide At;
    assert i in Pdes(m, d) <==> At(m, d, i).p;
    OneMore(dirs, Pdes(m, d), i);
  }

  lemma OneMore(dirs: set<nat>, used: set<nat>, i: nat)
    ensures |dirs + {i} - used| == |dirs - used| + if i in dirs || i in used then 0 else 1
  {
    if i in dirs || i in used {
      assert dirs + {i} - used == dirs - used;
    } else {
      assert dirs + {i} - used == (dirs - used) + {i};
    }
  }

  lemma MissingMore(m: Mem, d: nat, dirs: set<nat>, more: set<nat>)
    requires dirs <= more
    ensures Missing(m, d, dirs) <= Missing(m, d, more)
  {
    SubsetCount(dirs - Pdes(m, d), more - Pdes(m, d));
  }

  lemma {:induction false} DirsGrow(lo: nat, p: nat, hi: nat)
    requires p <= hi
    ensures Dirs(lo, p) <= Dirs(lo, hi)
  {
    if p < hi { DirsGrow(lo, p, hi - 1); }
  }

  /** The last row counts as far as it is mapped. */
  lemma RowDirs(ks: seq<Kmap>, k: Kmap, n: nat)
    ensures KernelDirs(ks + [k.(n := n)]) == KernelDirs(ks) + Dirs(k.virt, k.virt + n)
    ensures KernelDirs(ks + [k.(n := n + 1)]) == KernelDirs(ks + [k.(n := n)]) + {(k.virt + n) / NENT}
  {
    var a, b := ks + [k.(n := n)], ks + [k.(n := n + 1)];
    assert a[..|a| - 1] == ks && b[..|b| - 1] == ks;
  }

  /** Rows stay covered as more are added. */
  lemma {:induction false} KernelDirsGrow(ks: seq<Kmap>, j: nat)
    requires j <= |ks|
    ensures KernelDirs(ks[..j]) <= KernelDirs(ks)
    decreases |ks|
  {
    if j < |ks| {
      var front := ks[..|ks| - 1];
      KernelDirsGrow(front, j);
      assert front[..j] == ks[..j];
    } else {
      assert ks[..j] == ks;
    }
  }

  lemma {:induction false} KernelDirsBound(ks: seq<Kmap>, i: nat)
    requires KmapOk(ks) && i in KernelDirs(ks)
    ensures i < NENT
    decreases |ks|
  {
    var k := ks[|ks| - 1];
    assert k.virt + k.n <= NENT * NENT;
    if i in Dirs(k.virt, k.virt + k.n) {
      DirsBound(k.virt, k.virt + k.n, i);
    } else {
      KernelDirsBound(ks[..|ks| - 1], i);
    }
  }

  lemma {:induction false} DirsBound(lo: nat, hi: nat, i: nat)
    requires hi <= NENT * NENT && i in Dirs(lo, hi)
    ensures i < NENT
    decreases hi
  {
    if i != (hi - 1) / NENT { DirsBound(lo, hi - 1, i); }
  }

  /** The directory entries in use and what is free: what the tables for `dirs` took makes up the
      difference to `all`. */
  ghost predicate Tally(m: Mem, w: Mem, d: nat, dirs: set<nat>, free: nat, all: nat) {
    DirsAre(m, w, d, dirs) && free + Missing(m, d, dirs) == all
  }

  // ---------------------------------------------------------------- user pages

  /** The pages it takes to map the user pages of `d` from `lo` up to `hi`. */
  ghost function Needs(m: Mem, d: nat, lo: nat, hi: nat): (pages: nat)
    requires lo <= hi
  {
    hi - lo + Missing(m, d, Dirs(lo, hi))
  }

  /** Of `all` free pages, those from `lo` up to `p` have been mapped and `free` are left. */
  ghost predicate Spending(m: Mem, w: Mem, d: nat, lo: nat, p: nat, free: nat, all: nat) {
    lo <= p && Tally(m, w, d, Dirs(lo, p), free + (p - lo), all)
  }

  lemma SpendStart(m: Mem, d: nat, lo: nat, free: nat)
    ensures Spending(m, m, d, lo, lo, free, free)
  {
    DirsStart(m, d);
  }

  lemma SpendTake(m: Mem, w: Mem, d: nat, dirs: set<nat>, x: nat, bytes: seq<byte>)
    requires DirsAre(m, w, d, dirs) && Unused(w, x)
    ensures DirsAre(m, Take(w, x, bytes), d, dirs)
  {
    forall i: nat | i < NENT
      ensures At(Take(w, x, bytes), d, i) == At(w, d, i)
    {
      TakeLookup(w, x, bytes, d, i, 0);
    }
  }

  /** One page was taken and mapped, with a page table if there was none. */
  lemma SpendNext(m: Mem, w: Mem, y: Mem, z: Mem, d: nat, lo: nat, p: nat, x: nat, bytes: seq<byte>, free: nat,
                  free': nat, all: nat)
    requires Spending(m, w, d, lo, p, free, all) && Unused(w, x) && y == Take(w, x, bytes) && p / NENT < NENT
    requires DirsAre(y, z, d, {p / NENT}) && free == free' + 1 + if At(y, d, p / NENT).p then 0 else 1
    ensures Spending(m, z, d, lo, p + 1, free', all)
  {
    hide At;
    SpendTake(m, w, d, Dirs(lo, p), x, bytes);
    DirsNext(m, y, z, d, Dirs(lo, p), p / NENT);
  }

  /** No page is left for the next one. */
  lemma SpentPages(m: Mem, w: Mem, d: nat, lo: nat, p: nat, hi: nat, all: nat)
    requires Spending(m, w, d, lo, p, 0, all) && p < hi
    ensures all < Needs(m, d, lo, hi)
  {
    DirsGrow(lo, p, hi);
    MissingMore(m, d, Dirs(lo, p), Dirs(lo, hi));
  }

  /** One page is left, and its page table is missing. */
  lemma SpentTables(m: Mem, w: Mem, y: Mem, d: nat, lo: nat, p: nat, hi: nat, x: nat, bytes: seq<byte>, all: nat)
    requires Spending(m, w, d, lo, p, 1, all) && p < hi && Unused(w, x) && y == Take(w, x, bytes)
    requires p / NENT < NENT && !At(y, d, p / NENT).p
    ensures all < Needs(m, d, lo, hi)
  {
    hide At;
    SpendTake(m, w, d, Dirs(lo, p), x, bytes);
    OneMore(Dirs(lo, p), Pdes(m, d), p / NENT);
    assert p / NENT !in Pdes(m, d) && p / NENT !in Dirs(lo, p);
    DirsGrow(lo, p + 1, hi);
    MissingMore(m, d, Dirs(lo, p + 1), Dirs(lo, hi));
  }

  /** What is left at page `p` tells how the need up to there, or to a page further up, compares. */
  lemma SpentUpTo(m: Mem, w: Mem, d: nat, lo: nat, p: nat, q: nat, hi: nat, free: nat, all: nat)
    requires Spending(m, w, d, lo, p, free, all) && p <= q <= hi
    ensures p == q ==> all == free + Needs(m, d, lo, q)
    ensures p < q && free == 0 ==> all < Needs(m, d, lo, q)
  {
    if p < q && free == 0 { SpentPages(m, w, d, lo, p, q, all); }
  }

  lemma SpentAll(m: Mem, w: Mem, d: nat, lo: nat, hi: nat, free: nat, all: nat)
    requires Spending(m, w, d, lo, hi, free, all)
    ensures all == free + Needs(m, d, lo, hi)
  {
  }

  // ---------------------------------------------------------------- a new directory

  ghost predicate DirsExactly(w: Mem, d: nat, dirs: set<nat>) {
    forall i: nat :: i < NENT ==> (At(w, d, i).p <==> i in dirs)
  }

  lemma NewDirTally(m: Mem, w: Mem, d: nat, dirs: set<nat>)
    requires Unused(m, d)
    ensures Missing(NewDir(m, d), d, dirs) == |dirs|
    ensures DirsAre(NewDir(m, d), w, d, dirs) <==> DirsExactly(w, d, dirs)
  {
    forall i: nat
      ensures !At(NewDir(m, d), d, i).p
    {
      NewDirAt(m, d, d, i, 0);
    }
    assert dirs - Pdes(NewDir(m, d), d) == dirs;
  }

  /** A row that could not be mapped to its end needs a page table more than there were pages. */
  lemma RowsTooMany(ks: seq<Kmap>, k: nat, n: nat)
    requires k < |ks| && n < ks[k].n && (ks[k].virt + n) / NENT !in KernelDirs(ks[..k] + [ks[k].(n := n)])
    ensures |KernelDirs(ks[..k] + [ks[k].(n := n)])| < |KernelDirs(ks)|
  {
    hide KernelDirs, Dirs;
    var row, front := ks[k], ks[..k];
    RowDirs(front, row, n);
    RowDirs(front, row, n + 1);
    RowDirs(front, row, row.n);
    DirsGrow(row.virt, row.virt + n + 1, row.virt + row.n);
    assert row.(n := row.n) == row && front + [row] == ks[..k + 1];
    KernelDirsGrow(ks, k + 1);
    SubsetCount(KernelDirs(front + [row.(n := n)]) + {(row.virt + n) / NENT}, KernelDirs(ks));
  }

  /** What `copyuvm` needs for `n` user pages: the directory, the kernel's page tables, the pages
      and their page tables. */
  ghost function ChildNeeds(ks: seq<Kmap>, n: nat): (pages: nat) {
    1 + |KernelDirs(ks)| + n + |Dirs(0, n) - KernelDirs(ks)|
  }

  lemma ChildNeedsIs(s: Mem, d: nat, ks: seq<Kmap>, n: nat)
    requires KmapOk(ks) && DirsExactly(s, d, KernelDirs(ks))
    ensures ChildNeeds(ks, n) == 1 + |KernelDirs(ks)| + Needs(s, d, 0, n)
  {
    hide At;
    forall i | i in KernelDirs(ks)
      ensures i < NENT
    {
      KernelDirsBound(ks, i);
    }
    assert Pdes(s, d) == KernelDirs(ks);
  }
}
