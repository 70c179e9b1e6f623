/** Truncation: what the loops of `itrunc` keep. */
module FsTrunc {
  import opened Bytes
  import opened FsModel
  import opened FsFiles

  /** Only the free map may differ between the two disks. */
  ghost predicate SameData(sb: Super, d: seq<Block>, e: seq<Block>) {
    |d| == |e| == sb.size && forall a :: sb.datastart <= a < sb.size ==> e[a] == d[a]
  }

  ghost predicate SameAttrs(v: Vol, w: Vol) {
    && |w.inodes| == |v.inodes|
    && forall m: nat :: m < |v.inodes| ==>
         HasFile(w, m) && w.inodes[m].size == v.inodes[m].size && w.inodes[m].kind == v.inodes[m].kind
  }

  /** The first `i` direct blocks of file `n` have been given back; all else is as in `v`. */
  ghost predicate DirectFreed(sb: Super, v: Vol, w: Vol, n: nat, i: nat) {
    && Good(sb, v) && Good(sb, w) && SameData(sb, v.disk, w.disk) && SameAttrs(v, w) && n < |v.inodes|
    && forall s: Slot :: GoodSlot(v.inodes, s) ==>
         AddrOf(w.disk, w.inodes, s) ==
           if s.Direct? && s.inum == n && s.i < i then 0 else AddrOf(v.disk, v.inodes, s)
  }

  lemma DirectFreedStart(sb: Super, v: Vol, n: nat)
    requires Good(sb, v) && n < |v.inodes|
    ensures DirectFreed(sb, v, v, n, 0)
  {
  }

  lemma DirectFreedFacts(sb: Super, v: Vol, w: Vol, n: nat, i: nat)
    requires DirectFreed(sb, v, w, n, i)
    ensures Good(sb, w) && n < |w.inodes| == |v.inodes| && GoodInode(w.inodes[n])
    ensures WellSized(sb, w.disk) && sb.datastart <= sb.size
  {
  }

  lemma FreeNextDirect(sb: Super, v: Vol, w: Vol, n: nat, i: nat)
    requires DirectFreed(sb, v, w, n, i) && i < NDIRECT
    ensures w.inodes[n].addrs[i] == 0 ==> DirectFreed(sb, v, w, n, i + 1)
    ensures var a := w.inodes[n].addrs[i];
            a != 0 ==> a < sb.size && MapBlock(sb, a) < sb.datastart && Used(sb, w.disk, a)
                       && DirectFreed(sb, v, Vol(Mark(sb, w.disk, a, false), SetAddr(w.inodes, n, i, 0), w.owner - {a}), n, i + 1)
  {
    var d := Direct(n, i);
    assert GoodSlot(v.inodes, d);
    if w.inodes[n].addrs[i] != 0 {
      FreeDirect(sb, w.disk, w.inodes, w.owner, n, i);
      assert MapBlock(sb, w.inodes[n].addrs[i]) < sb.datastart;
      FreedDirect(sb, v, w, n, i);
    }
  }

  lemma FreedDirect(sb: Super, v: Vol, w: Vol, n: nat, i: nat)
    requires DirectFreed(sb, v, w, n, i) && i < NDIRECT
    requires var a := w.inodes[n].addrs[i];
             && MapBlock(sb, a) < sb.datastart
             && Good(sb, Vol(Mark(sb, w.disk, a, false), SetAddr(w.inodes, n, i, 0), w.owner - {a}))
             && forall s: Slot :: GoodSlot(w.inodes, s) && s != Direct(n, i) ==>
                  AddrOf(Mark(sb, w.disk, a, false), SetAddr(w.inodes, n, i, 0), s) == AddrOf(w.disk, w.inodes, s)
    ensures var a := w.inodes[n].addrs[i];
            DirectFreed(sb, v, Vol(Mark(sb, w.disk, a, false), SetAddr(w.inodes, n, i, 0), w.owner - {a}), n, i + 1)
  {
    var a := w.inodes[n].addrs[i];
    var x := Vol(Mark(sb, w.disk, a, false), SetAddr(w.inodes, n, i, 0), w.owner - {a});
    forall s: Slot | GoodSlot(v.inodes, s)
      ensures AddrOf(x.disk, x.inodes, s) ==
                if s.Direct? && s.inum == n && s.i < i + 1 then 0 else AddrOf(v.disk, v.inodes, s)
    {
      assert GoodSlot(w.inodes, s);
    }
  }

  /** The blocks of the first `t` entries have been given back, but are still listed. */
  ghost predicate EntriesFreed(sb: Super, w: Vol, d: seq<Block>, n: nat, t: nat) {
    && Good(sb, w) && n < |w.inodes| && SameData(sb, w.disk, d)
    && WellSized(sb, d) && Owned(sb, d, w.inodes, w.owner)
    && MapIs(sb, d, w.owner.Keys - EntryBlocks(w.owner, n, t))
  }

  lemma EntriesFreedStart(sb: Super, w: Vol, n: nat)
    requires Good(sb, w) && n < |w.inodes|
    ensures EntriesFreed(sb, w, w.disk, n, 0)
  {
    assert w.owner.Keys - EntryBlocks(w.owner, n, 0) == w.owner.Keys;
  }

  lemma EntriesFreedFacts(sb: Super, w: Vol, d: seq<Block>, n: nat, t: nat)
    requires EntriesFreed(sb, w, d, n, t)
    ensures WellSized(sb, d) && sb.datastart <= sb.size == |d| && forall b: nat :: sb.bmapstart <= MapBlock(sb, b)
  {
  }

  lemma FreeNextEntry(sb: Super, w: Vol, d: seq<Block>, n: nat, t: nat)
    requires EntriesFreed(sb, w, d, n, t) && t < NINDIRECT && w.inodes[n].addrs[NDIRECT] != 0
    ensures sb.datastart <= w.inodes[n].addrs[NDIRECT] < sb.size
    ensures var a := Word(w.disk[w.inodes[n].addrs[NDIRECT]], t);
            a == 0 ==> EntriesFreed(sb, w, d, n, t + 1)
    ensures var a := Word(w.disk[w.inodes[n].addrs[NDIRECT]], t);
            a != 0 ==> a < sb.size && MapBlock(sb, a) < sb.datastart && Used(sb, d, a)
                       && EntriesFreed(sb, w, Mark(sb, d, a, false), n, t + 1)
  {
    var ind := w.inodes[n].addrs[NDIRECT];
    assert GoodSlot(w.inodes, Indirect(n)) && AddrOf(d, w.inodes, Indirect(n)) == ind;
    var a := AddrOf(d, w.inodes, Entry(n, t));
    assert a == Word(w.disk[ind], t);
    EntryBlocksNext(sb, d, w.inodes, w.owner, n, t);
    if a != 0 {
      assert GoodSlot(w.inodes, Entry(n, t));
      assert MapBlock(sb, a) < sb.datastart;
      MarkKeepsOwned(sb, d, w.inodes, w.owner, a, false);
      ClearedMap(sb, d, w.owner.Keys - EntryBlocks(w.owner, n, t), a);
      assert w.owner.Keys - EntryBlocks(w.owner, n, t) - {a} == w.owner.Keys - EntryBlocks(w.owner, n, t + 1);
    }
  }

  /** The indirect block of file `n` and all it lists have been given back. */
  ghost predicate IndirectFreed(sb: Super, w: Vol, x: Vol, n: nat) {
    && Good(sb, x) && SameData(sb, w.disk, x.disk) && n < |w.inodes| && GoodInode(w.inodes[n])
    && x.inodes == SetAddr(w.inodes, n, NDIRECT, 0)
    && forall s: Slot :: GoodSlot(w.inodes, s) ==>
         AddrOf(x.disk, x.inodes, s) ==
           if s == Indirect(n) || (s.Entry? && s.inum == n) then 0 else AddrOf(w.disk, w.inodes, s)
  }

  lemma FreeIndirect(sb: Super, w: Vol, d: seq<Block>, n: nat)
    requires EntriesFreed(sb, w, d, n, NINDIRECT) && w.inodes[n].addrs[NDIRECT] != 0
    ensures var ind := w.inodes[n].addrs[NDIRECT];
            && sb.datastart <= ind < sb.size && MapBlock(sb, ind) < sb.datastart && Used(sb, d, ind)
            && IndirectFreed(sb, w, Vol(Mark(sb, d, ind, false), SetAddr(w.inodes, n, NDIRECT, 0),
                                        w.owner - (EntryBlocks(w.owner, n, NINDIRECT) + {ind})), n)
  {
    var ind := w.inodes[n].addrs[NDIRECT];
    assert GoodSlot(w.inodes, Indirect(n)) && AddrOf(d, w.inodes, Indirect(n)) == ind;
    var inUse := w.owner.Keys - EntryBlocks(w.owner, n, NINDIRECT);
    assert ind in inUse && MapBlock(sb, ind) < sb.datastart;
    MarkKeepsOwned(sb, d, w.inodes, w.owner, ind, false);
    ClearedMap(sb, d, inUse, ind);
    var e := Mark(sb, d, ind, false);
    DropIndirect(sb, e, w.inodes, w.owner, n);
    forall s: Slot | GoodSlot(w.inodes, s)
      ensures AddrOf(e, w.inodes, s) == AddrOf(w.disk, w.inodes, s)
    {
      SameAddr(sb, w.disk, w.inodes, w.owner, 0, e, s);
    }
  }

  /** File `n` is empty; every other file is as it was. */
  ghost predicate Truncated(sb: Super, v: Vol, f: Vol, n: nat) {
    && Good(sb, f) && Files(f) && SameInodes(v, f, n) && n < |v.inodes| && f.inodes[n].size == 0
    && (forall s: Slot :: GoodSlot(f.inodes, s) && s.inum == n ==> AddrOf(f.disk, f.inodes, s) == 0)
    && (forall m: nat :: m < |v.inodes| && m != n ==> Content(f, m) == Content(v, m))
    && (forall b: nat :: b in f.owner <==> b in v.owner && v.owner[b].inum != n)
  }

  /** All slots of file `n` are empty, all other slots and all data blocks are as in `v`. */
  ghost predicate Emptied(sb: Super, v: Vol, x: Vol, n: nat) {
    && Good(sb, v) && Good(sb, x) && SameData(sb, v.disk, x.disk) && SameAttrs(v, x) && n < |v.inodes|
    && forall s: Slot :: GoodSlot(v.inodes, s) ==>
         AddrOf(x.disk, x.inodes, s) == if s.inum == n then 0 else AddrOf(v.disk, v.inodes, s)
  }

  lemma EmptiedWithoutIndirect(sb: Super, v: Vol, w: Vol, n: nat)
    requires DirectFreed(sb, v, w, n, NDIRECT) && w.inodes[n].addrs[NDIRECT] == 0
    ensures Emptied(sb, v, w, n)
  {
    assert GoodSlot(v.inodes, Indirect(n));
  }

  lemma EmptiedWithIndirect(sb: Super, v: Vol, w: Vol, x: Vol, n: nat)
    requires DirectFreed(sb, v, w, n, NDIRECT) && IndirectFreed(sb, w, x, n)
    ensures Emptied(sb, v, x, n)
  {
    forall s: Slot | GoodSlot(v.inodes, s)
      ensures AddrOf(x.disk, x.inodes, s) == if s.inum == n then 0 else AddrOf(v.disk, v.inodes, s)
    {
      assert GoodSlot(w.inodes, s);
    }
  }

  /** The inodes of the other files are as they were. */
  lemma EmptiedOthers(sb: Super, v: Vol, x: Vol, n: nat)
    requires Emptied(sb, v, x, n)
    ensures n < |v.inodes| && |x.inodes| == |v.inodes| && x.inodes == v.inodes[n := x.inodes[n]]
  {
    forall m: nat | m < |v.inodes| && m != n
      ensures x.inodes[m] == v.inodes[m]
    {
      assert HasFile(x, m) && GoodInode(v.inodes[m]);
      forall i | 0 <= i <= NDIRECT
        ensures x.inodes[m].addrs[i] == v.inodes[m].addrs[i]
      {
        var s := if i < NDIRECT then Direct(m, i) else Indirect(m);
        assert GoodSlot(v.inodes, s) && AddrOf(x.disk, x.inodes, s) == AddrOf(v.disk, v.inodes, s);
      }
      assert x.inodes[m].addrs == v.inodes[m].addrs;
    }
  }

  /** With all its slots empty and its size set to 0, the file is truncated. */
  lemma TruncEnd(sb: Super, v: Vol, x: Vol, n: nat, f: Vol)
    requires Emptied(sb, v, x, n) && Files(v) && f == x.(inodes := SetSize(x.inodes, n, 0))
    ensures Good(sb, f) && Files(f) && Truncated(sb, v, f, n)
  {
    hide MapIs, WellSized, Owned, Content;
    EmptiedOthers(sb, v, x, n);
    SizeKeeps(sb, x, n, 0, f);
    forall s: Slot | GoodSlot(f.inodes, s)
      ensures AddrOf(f.disk, f.inodes, s) == if s.inum == n then 0 else AddrOf(v.disk, v.inodes, s)
    {
      assert GoodSlot(v.inodes, s);
      assert AddrOf(x.disk, x.inodes, s) == AddrOf(f.disk, f.inodes, s);
    }
    forall m: nat | m < |v.inodes|
      ensures HasFile(v, m) && HasFile(f, m) && v.inodes[m].size <= MAXFILE * BSIZE
      ensures HoleFree(f, m, f.inodes[m].size)
      ensures m != n ==> f.inodes[m].size == v.inodes[m].size && Content(f, m) == Content(v, m)
    {
      assert HoleFree(v, m, v.inodes[m].size);
      if m == n { EmptyHoleFree(f, n); } else { KeptFile(sb, v, f, m); }
    }
    FreedExactly(sb, v, f, n);
  }

  /** The blocks of file `n` are free again, and no other block is. */
  lemma FreedExactly(sb: Super, v: Vol, f: Vol, n: nat)
    requires Good(sb, v) && Good(sb, f)
    requires forall s: Slot :: GoodSlot(f.inodes, s) <==> GoodSlot(v.inodes, s)
    requires forall s: Slot :: GoodSlot(f.inodes, s) ==>
               AddrOf(f.disk, f.inodes, s) == if s.inum == n then 0 else AddrOf(v.disk, v.inodes, s)
    ensures forall b: nat :: b in f.owner <==> b in v.owner && v.owner[b].inum != n
  {
    forall b: nat
      ensures b in f.owner <==> b in v.owner && v.owner[b].inum != n
    {
      if b in f.owner { assert AddrOf(v.disk, v.inodes, f.owner[b]) == b; }
      if b in v.owner && v.owner[b].inum != n { assert AddrOf(f.disk, f.inodes, v.owner[b]) == b; }
    }
  }

  lemma EmptyHoleFree(f: Vol, n: nat)
    requires HasFile(f, n)
    requires forall s: Slot :: GoodSlot(f.inodes, s) && s.inum == n ==> AddrOf(f.disk, f.inodes, s) == 0
    ensures HoleFree(f, n, 0)
  {
    forall k: nat | k < MAXFILE
      ensures At(f, n, k) == 0
    {
      assert GoodSlot(f.inodes, SlotOf(n, k));
    }
    assert GoodSlot(f.inodes, Indirect(n)) && AddrOf(f.disk, f.inodes, Indirect(n)) == f.inodes[n].addrs[NDIRECT];
  }

  /** A file whose slots did not move has the contents it had. */
  lemma KeptFile(sb: Super, v: Vol, f: Vol, m: nat)
    requires Good(sb, v) && Good(sb, f) && SameData(sb, v.disk, f.disk) && HasFile(v, m) && HasFile(f, m)
    requires HoleFree(v, m, v.inodes[m].size) && f.inodes[m].size == v.inodes[m].size
    requires forall s: Slot :: GoodSlot(v.inodes, s) && s.inum == m ==>
               GoodSlot(f.inodes, s) && AddrOf(f.disk, f.inodes, s) == AddrOf(v.disk, v.inodes, s)
    ensures HoleFree(f, m, f.inodes[m].size) && Content(f, m) == Content(v, m)
  {
    hide Good, SameData, ByteAt;
    forall k: nat | k < MAXFILE
      ensures At(f, m, k) == At(v, m, k)
    {
      assert GoodSlot(v.inodes, SlotOf(m, k));
    }
    assert GoodSlot(v.inodes, Indirect(m)) && AddrOf(f.disk, f.inodes, Indirect(m)) == AddrOf(v.disk, v.inodes, Indirect(m));
    forall p | 0 <= p < v.inodes[m].size
      ensures ByteAt(f, m, p) == ByteAt(v, m, p)
    {
      KeptByte(sb, v, f, m, p);
    }
  }

  lemma KeptByte(sb: Super, v: Vol, f: Vol, m: nat, p: nat)
    requires Good(sb, v) && Good(sb, f) && SameData(sb, v.disk, f.disk) && HasFile(v, m) && HasFile(f, m)
    requires p < MAXFILE * BSIZE && At(f, m, p / BSIZE) == At(v, m, p / BSIZE)
    ensures ByteAt(f, m, p) == ByteAt(v, m, p)
  {
    hide MapIs;
    assert GoodSlot(v.inodes, SlotOf(m, p / BSIZE));
  }

  /** Only blocks of the free map are added. */
  ghost predicate LogsMap(sb: Super, was: set<nat>, now: set<nat>) {
    forall b :: b in now && b !in was ==> sb.bmapstart <= b < sb.datastart
  }
}
