/** Files as bytes: what mapping a block, and writing into one, does to every byte of every
    file. */
module FsFiles {
  import opened Bytes
  import opened FsModel

  /** The blocks, the inodes, and the owner of every block in use. */
  datatype Vol = Vol(disk: seq<Block>, inodes: seq<Inode>, owner: map<nat, Slot>)

  ghost predicate Good(sb: Super, v: Vol) {
    FsInv(sb, v.disk, v.inodes, v.owner)
  }

  ghost predicate HasFile(v: Vol, n: nat) {
    n < |v.inodes| && GoodInode(v.inodes[n])
  }

  /** The block number of the k-th block of file `n`. */
  ghost function At(v: Vol, n: nat, k: nat): (a: nat)
    requires HasFile(v, n) && k < MAXFILE
  {
    BlockAt(v.disk, v.inodes, n, k)
  }

  /** A file of `z` bytes has exactly the blocks it needs: no holes, and nothing beyond. */
  ghost predicate HoleFree(v: Vol, n: nat, z: nat) {
    && HasFile(v, n) && z <= MAXFILE * BSIZE
    && (forall k: nat :: k < MAXFILE ==> (At(v, n, k) != 0 <==> k * BSIZE < z))
    && (v.inodes[n].addrs[NDIRECT] != 0 <==> NDIRECT * BSIZE < z)
  }

  /** Byte `p` of file `n`. */
  ghost function ByteAt(v: Vol, n: nat, p: nat): (x: byte)
    requires HasFile(v, n) && p < MAXFILE * BSIZE
  {
    var a := At(v, n, p / BSIZE);
    if 0 < a < |v.disk| && |v.disk[a]| == BSIZE then v.disk[a][p % BSIZE] else 0
  }

  /** The contents of a file. */
  ghost function Content(v: Vol, n: nat): (s: seq<byte>)
    requires HasFile(v, n) && v.inodes[n].size <= MAXFILE * BSIZE
    ensures |s| == v.inodes[n].size
    ensures forall p :: 0 <= p < |s| ==> s[p] == ByteAt(v, n, p)
  {
    seq(v.inodes[n].size, p requires 0 <= p < v.inodes[n].size => ByteAt(v, n, p))
  }

  /** Every inode describes a file without holes. */
  ghost predicate Files(v: Vol) {
    forall n: nat :: n < |v.inodes| ==> HoleFree(v, n, v.inodes[n].size)
  }

  // ---------------------------------------------------------------- frames

  /** Block `k` of file `n` is where it was and holds what it held. */
  ghost predicate SameBlock(v: Vol, w: Vol, n: nat, k: nat)
    requires HasFile(v, n) && HasFile(w, n) && k < MAXFILE
  {
    var a := At(v, n, k);
    At(w, n, k) == a && (0 < a < |v.disk| ==> a < |w.disk| && w.disk[a] == v.disk[a])
  }

  /** Sizes and kinds are as before, and so is every block but possibly block `k` of file `n`. */
  ghost predicate SameButBlock(v: Vol, w: Vol, n: nat, k: nat) {
    && |w.inodes| == |v.inodes| && |w.disk| == |v.disk|
    && (forall m: nat :: m < |v.inodes| ==>
          && HasFile(v, m) && HasFile(w, m)
          && w.inodes[m].size == v.inodes[m].size && w.inodes[m].kind == v.inodes[m].kind)
    && (forall m: nat, l: nat :: m < |v.inodes| && l < MAXFILE && !(m == n && l == k) ==> SameBlock(v, w, m, l))
    && (forall m: nat :: m < |v.inodes| && m != n ==> w.inodes[m] == v.inodes[m])
  }

  /** The inodes differ at most in the indirect slot of `n` and the slot of its k-th block, and
      no data block in use changed: all other blocks of all files are the same. */
  lemma FrameFromSlots(sb: Super, v: Vol, w: Vol, n: nat, k: nat)
    requires Good(sb, v) && n < |v.inodes| && k < MAXFILE
    requires |w.inodes| == |v.inodes| && |w.disk| == |v.disk|
    requires forall m: nat :: m < |v.inodes| && m != n ==> w.inodes[m] == v.inodes[m]
    requires GoodInode(w.inodes[n]) && w.inodes[n].size == v.inodes[n].size && w.inodes[n].kind == v.inodes[n].kind
    requires forall s: Slot :: GoodSlot(v.inodes, s) && s != SlotOf(n, k) && s != Indirect(n) ==>
               AddrOf(w.disk, w.inodes, s) == AddrOf(v.disk, v.inodes, s)
    requires forall a :: a in v.owner && !v.owner[a].Indirect? && v.owner[a] != SlotOf(n, k) ==> w.disk[a] == v.disk[a]
    ensures SameButBlock(v, w, n, k)
  {
    forall m: nat, l: nat | m < |v.inodes| && l < MAXFILE && !(m == n && l == k)
      ensures HasFile(v, m) && SameBlock(v, w, m, l)
    {
      assert GoodSlot(v.inodes, SlotOf(m, l));
    }
  }

  lemma {:induction false} SameButBlockTrans(u: Vol, v: Vol, w: Vol, n: nat, k: nat)
    requires SameButBlock(u, v, n, k) && SameButBlock(v, w, n, k)
    ensures SameButBlock(u, w, n, k)
  {
    forall m: nat, l: nat | m < |u.inodes| && l < MAXFILE && !(m == n && l == k)
      ensures SameBlock(u, w, m, l)
    {
      assert SameBlock(u, v, m, l) && SameBlock(v, w, m, l);
    }
  }

  // ---------------------------------------------------------------- mapping a block

  /** `bmap(n, k)` took the volume from `v` to `w` and returned `a`. */
  ghost predicate Mapped(sb: Super, v: Vol, w: Vol, n: nat, k: nat, a: nat) {
    && Good(sb, v) && Good(sb, w) && n < |v.inodes| && k < MAXFILE
    && SameButBlock(v, w, n, k)
    && At(w, n, k) == a && a in w.owner && w.owner[a] == SlotOf(n, k)
    && (At(v, n, k) != 0 ==> w == v)
    && (At(v, n, k) == 0 ==> w.disk[a] == ZeroBlock())
    && (w.inodes[n].addrs[NDIRECT] != 0 <==> v.inodes[n].addrs[NDIRECT] != 0 || NDIRECT <= k)
    && (v.inodes[n].addrs[NDIRECT] != 0 ==> w.inodes[n].addrs[NDIRECT] == v.inodes[n].addrs[NDIRECT])
  }

  /** The block is there already. */
  lemma MapHit(sb: Super, v: Vol, n: nat, k: nat)
    requires Good(sb, v) && n < |v.inodes| && k < MAXFILE && At(v, n, k) != 0
    ensures Mapped(sb, v, v, n, k, At(v, n, k))
  {
    var s := SlotOf(n, k);
    assert GoodSlot(v.inodes, s) && AddrOf(v.disk, v.inodes, s) == At(v, n, k);
    if NDIRECT <= k {
      assert v.inodes[n].addrs[NDIRECT] != 0;
    }
  }

  /** A fresh block in a direct slot. */
  lemma MapDirect(sb: Super, v: Vol, n: nat, k: nat, b: nat, w: Vol)
    requires Good(sb, v) && n < |v.inodes| && k < NDIRECT && At(v, n, k) == 0
    requires b < sb.size && MapBlock(sb, b) < |v.disk| && !Used(sb, v.disk, b)
    requires w == Vol(Mark(sb, v.disk, b, true)[b := ZeroBlock()], SetAddr(v.inodes, n, k, b), v.owner[b := Direct(n, k)])
    ensures Mapped(sb, v, w, n, k, b)
  {
    AllocKeepsOwned(sb, v.disk, v.inodes, v.owner, b, w.disk);
    FillDirect(sb, w.disk, v.inodes, v.owner, n, k, b);
    FrameFromSlots(sb, v, w, n, k);
  }

  /** A fresh indirect block. */
  lemma MapIndirect(sb: Super, v: Vol, n: nat, k: nat, b: nat, w: Vol)
    requires Good(sb, v) && n < |v.inodes| && NDIRECT <= k < MAXFILE && v.inodes[n].addrs[NDIRECT] == 0
    requires b < sb.size && MapBlock(sb, b) < |v.disk| && !Used(sb, v.disk, b)
    requires w == Vol(Mark(sb, v.disk, b, true)[b := ZeroBlock()], SetAddr(v.inodes, n, NDIRECT, b), v.owner[b := Indirect(n)])
    ensures Good(sb, w) && SameButBlock(v, w, n, k) && At(w, n, k) == 0 && At(v, n, k) == 0 && b != 0
  {
    AllocKeepsOwned(sb, v.disk, v.inodes, v.owner, b, w.disk);
    FillIndirect(sb, w.disk, v.inodes, v.owner, n, b);
    FrameFromSlots(sb, v, w, n, k);
    var s := SlotOf(n, k);
    assert GoodSlot(v.inodes, s) && AddrOf(w.disk, w.inodes, s) == AddrOf(v.disk, v.inodes, s);
  }

  /** A fresh block in an entry of the indirect block. */
  lemma MapEntry(sb: Super, v: Vol, n: nat, k: nat, b: nat, w: Vol)
    requires Good(sb, v) && n < |v.inodes| && NDIRECT <= k < MAXFILE && At(v, n, k) == 0
    requires b < sb.size && MapBlock(sb, b) < |v.disk| && !Used(sb, v.disk, b)
    requires 0 < v.inodes[n].addrs[NDIRECT] < sb.size
    requires var ind := v.inodes[n].addrs[NDIRECT];
             var d := Mark(sb, v.disk, b, true)[b := ZeroBlock()];
             |d[ind]| == BSIZE &&
             w == Vol(d[ind := PutWord(d[ind], k - NDIRECT, b)], v.inodes, v.owner[b := Entry(n, k - NDIRECT)])
    ensures Mapped(sb, v, w, n, k, b)
  {
    hide Owned, MapIs, WellSized, Used, Mark;
    EntrySlots(sb, v, n, k);
    var ind := v.inodes[n].addrs[NDIRECT];
    var d := Mark(sb, v.disk, b, true)[b := ZeroBlock()];
    var s := SlotOf(n, k);
    AllocKeepsOwned(sb, v.disk, v.inodes, v.owner, b, d);
    assert AddrOf(d, v.inodes, s) == 0;
    FillEntry(sb, d, v.inodes, v.owner, n, k - NDIRECT, b, w.disk);
    OwnerIsSlot(sb, w, b);
    FrameFromSlots(sb, v, w, n, k);
  }

  lemma EntrySlots(sb: Super, v: Vol, n: nat, k: nat)
    requires Good(sb, v) && n < |v.inodes| && NDIRECT <= k < MAXFILE
    ensures |v.disk| == sb.size && HasFile(v, n) && GoodSlot(v.inodes, SlotOf(n, k)) && GoodSlot(v.inodes, Indirect(n))
    ensures AddrOf(v.disk, v.inodes, Indirect(n)) == v.inodes[n].addrs[NDIRECT]
    ensures forall a :: a in v.owner ==> sb.datastart <= a < sb.size
    ensures forall a :: 0 <= a < sb.size ==> |v.disk[a]| == BSIZE
  {
    hide MapIs;
  }

  lemma OwnerIsSlot(sb: Super, w: Vol, b: nat)
    requires Good(sb, w) && b in w.owner
    ensures GoodSlot(w.inodes, w.owner[b]) && HasFile(w, w.owner[b].inum) && AddrOf(w.disk, w.inodes, w.owner[b]) == b
  {
    hide MapIs;
  }

  // ---------------------------------------------------------------- writing into a block

  /** `memmove(data + o, s, |s|)`. */
  function Splice(b: Block, o: nat, s: seq<byte>): (r: Block)
    requires o + |s| <= |b|
    ensures |r| == |b|
    ensures forall i :: 0 <= i < |b| ==> r[i] == if o <= i < o + |s| then s[i - o] else b[i]
  {
    b[..o] + s + b[o + |s|..]
  }

  /** Replacing the contents of block `k` of file `n` changes nothing else. */
  lemma PutBlock(sb: Super, v: Vol, n: nat, k: nat, a: nat, data: Block, w: Vol)
    requires Good(sb, v) && n < |v.inodes| && k < MAXFILE
    requires a in v.owner && v.owner[a] == SlotOf(n, k) && |data| == BSIZE
    requires w == v.(disk := v.disk[a := data])
    ensures Good(sb, w) && SameButBlock(v, w, n, k) && At(w, n, k) == a == At(v, n, k)
  {
    WriteKeeps(sb, v.disk, v.inodes, v.owner, a, data);
    FrameFromSlots(sb, v, w, n, k);
    assert GoodSlot(v.inodes, SlotOf(n, k)) && AddrOf(v.disk, v.inodes, v.owner[a]) == a;
  }

  function Max(x: nat, y: nat): (r: nat) { if x < y then y else x }

  /** `writei` of `src` at `off`, started on `v`, has written `tot` bytes and come to `w`. */
  ghost predicate Writing(sb: Super, v: Vol, n: nat, off: nat, src: seq<byte>, tot: nat, w: Vol) {
    && Good(sb, v) && Good(sb, w) && Files(v) && n < |v.inodes| && |w.inodes| == |v.inodes| && |w.disk| == |v.disk|
    && off <= v.inodes[n].size && off + |src| <= MAXFILE * BSIZE && tot <= |src|
    && HoleFree(w, n, Max(v.inodes[n].size, off + tot))
    && SameButFile(v, w, n) && Written(v, n, off, src, tot, w)
    && (off + tot <= v.inodes[n].size ==> w.inodes == v.inodes)
  }

  /** Everything but the blocks of file `n` is as before. */
  ghost predicate SameButFile(v: Vol, w: Vol, n: nat) {
    && |w.inodes| == |v.inodes| && |w.disk| == |v.disk|
    && (forall m: nat :: m < |v.inodes| ==>
          && HasFile(v, m) && HasFile(w, m)
          && w.inodes[m].size == v.inodes[m].size && w.inodes[m].kind == v.inodes[m].kind)
    && (forall m: nat, l: nat :: m < |v.inodes| && l < MAXFILE && m != n ==> SameBlock(v, w, m, l))
    && (forall m: nat :: m < |v.inodes| && m != n ==> w.inodes[m] == v.inodes[m])
  }

  lemma SameButFileStep(v: Vol, w: Vol, x: Vol, n: nat, k: nat)
    requires SameButFile(v, w, n) && SameButBlock(w, x, n, k)
    ensures SameButFile(v, x, n)
  {
    forall m: nat, l: nat | m < |v.inodes| && l < MAXFILE && m != n
      ensures SameBlock(v, x, m, l)
    {
      assert SameBlock(v, w, m, l) && SameBlock(w, x, m, l);
    }
  }

  /** Bytes already written are those of `src`; the others are as they were. */
  ghost predicate Written(v: Vol, n: nat, off: nat, src: seq<byte>, tot: nat, w: Vol)
    requires HasFile(v, n) && HasFile(w, n) && v.inodes[n].size <= MAXFILE * BSIZE
    requires tot <= |src| && off + |src| <= MAXFILE * BSIZE
  {
    forall p: nat :: p < Max(v.inodes[n].size, off + tot) ==>
      ByteAt(w, n, p) == if off <= p < off + tot then src[p - off] else ByteAt(v, n, p)
  }

  lemma WritingStart(sb: Super, v: Vol, n: nat, off: nat, src: seq<byte>)
    requires Good(sb, v) && Files(v) && n < |v.inodes|
    requires off <= v.inodes[n].size && off + |src| <= MAXFILE * BSIZE
    ensures Writing(sb, v, n, off, src, 0, v)
  {
    assert HoleFree(v, n, v.inodes[n].size);
    assert SameButFile(v, v, n);
  }

  /** Bytes of other blocks stay; bytes of a block that was just mapped and then spliced are
      those of the splice. */
  lemma SteppedByte(sb: Super, w: Vol, x: Vol, y: Vol, n: nat, k: nat, a: nat, o: nat, s: seq<byte>, p: nat)
    requires Mapped(sb, w, x, n, k, a) && o + |s| <= BSIZE && p < MAXFILE * BSIZE
    requires |x.disk[a]| == BSIZE && y == x.(disk := x.disk[a := Splice(x.disk[a], o, s)])
    ensures HasFile(y, n)
    ensures p / BSIZE != k ==> ByteAt(y, n, p) == ByteAt(w, n, p)
    ensures p / BSIZE == k && o <= p % BSIZE < o + |s| ==> ByteAt(y, n, p) == s[p % BSIZE - o]
    ensures p / BSIZE == k && !(o <= p % BSIZE < o + |s|) && At(w, n, k) != 0 ==> ByteAt(y, n, p) == ByteAt(w, n, p)
  {
    PutBlock(sb, x, n, k, a, Splice(x.disk[a], o, s), y);
    if p / BSIZE != k {
      assert SameBlock(w, x, n, p / BSIZE) && SameBlock(x, y, n, p / BSIZE);
    }
  }

  /** Mapping and filling the block at the end of what has been written extends the file
      without a hole. */
  lemma SteppedHoleFree(sb: Super, w: Vol, x: Vol, y: Vol, n: nat, k: nat, a: nat, z: nat, z': nat)
    requires Mapped(sb, w, x, n, k, a) && Good(sb, y) && SameButBlock(x, y, n, k) && At(y, n, k) == a
    requires y.inodes == x.inodes
    requires HoleFree(w, n, z) && k * BSIZE <= z <= z' <= Max(z, (k + 1) * BSIZE) && k * BSIZE < z'
    ensures HoleFree(y, n, z')
  {
    forall l: nat | l < MAXFILE
      ensures At(y, n, l) != 0 <==> l * BSIZE < z'
    {
      if l != k {
        assert SameBlock(w, x, n, l) && SameBlock(x, y, n, l);
        assert At(w, n, l) != 0 <==> l * BSIZE < z;
      } else {
        assert sb.datastart <= a;
      }
    }
  }

  /** Which bytes of a block a chunk of `m` bytes at `q` covers. */
  lemma ChunkArith(q: nat, m: nat, p: nat)
    requires q % BSIZE + m <= BSIZE
    ensures q <= p < q + m ==> p / BSIZE == q / BSIZE
    ensures p / BSIZE == q / BSIZE ==> p % BSIZE - q % BSIZE == p - q
    ensures p / BSIZE * BSIZE <= p
  {
    assert p == BSIZE * (p / BSIZE) + p % BSIZE && q == BSIZE * (q / BSIZE) + q % BSIZE;
  }

  /** Where the file ends while `m` more bytes are written at `q`, in block `q / BSIZE`. */
  lemma EndArith(size: nat, q: nat, m: nat)
    requires 0 < m && q % BSIZE + m <= BSIZE
    ensures var k, z, z' := q / BSIZE, Max(size, q), Max(size, q + m);
            k * BSIZE <= z <= z' <= Max(z, (k + 1) * BSIZE) && k * BSIZE < z'
  {
    assert q == BSIZE * (q / BSIZE) + q % BSIZE;
  }

  ghost predicate Chunk(sb: Super, w: Vol, x: Vol, y: Vol, n: nat, q: nat, a: nat, s: seq<byte>) {
    && Mapped(sb, w, x, n, q / BSIZE, a) && a < |x.disk| && |x.disk[a]| == BSIZE
    && 0 < |s| && q % BSIZE + |s| <= BSIZE
    && y == x.(disk := x.disk[a := Splice(x.disk[a], q % BSIZE, s)])
  }

  /** One round of the loop of `writei`. */
  lemma WritingNext(sb: Super, v: Vol, n: nat, off: nat, src: seq<byte>, tot: nat, w: Vol, x: Vol, a: nat, m: nat,
                    y: Vol)
    requires Writing(sb, v, n, off, src, tot, w) && 0 < m <= |src| - tot
    requires Chunk(sb, w, x, y, n, off + tot, a, src[tot..tot + m])
    ensures Writing(sb, v, n, off, src, tot + m, y)
  {
    hide ByteAt, Splice, FsInv, At;
    var q := off + tot;
    var k, s := q / BSIZE, src[tot..tot + m];
    PutBlock(sb, x, n, k, a, Splice(x.disk[a], q % BSIZE, s), y);
    assert HoleFree(y, n, Max(v.inodes[n].size, off + tot + m)) by {
      EndArith(v.inodes[n].size, q, m);
      SteppedHoleFree(sb, w, x, y, n, k, a, Max(v.inodes[n].size, q), Max(v.inodes[n].size, q + m));
    }
    SameButFileStep(v, w, x, n, k);
    SameButFileStep(v, x, y, n, k);
    assert off + tot + m <= v.inodes[n].size ==> y.inodes == v.inodes by {
      ChunkArith(q, m, q);
      assert At(w, n, k) != 0 <==> k * BSIZE < Max(v.inodes[n].size, q);
    }
    assert Written(v, n, off, src, tot + m, y) by {
      forall p: nat | p < Max(v.inodes[n].size, off + tot + m)
        ensures ByteAt(y, n, p) == if off <= p < off + tot + m then src[p - off] else ByteAt(v, n, p)
      {
        WritingByte(sb, v, n, off, src, tot, w, x, a, m, y, p);
      }
    }
  }

  lemma WritingByte(sb: Super, v: Vol, n: nat, off: nat, src: seq<byte>, tot: nat, w: Vol, x: Vol, a: nat, m: nat,
                    y: Vol, p: nat)
    requires HasFile(v, n) && HasFile(w, n) && v.inodes[n].size <= MAXFILE * BSIZE
    requires HoleFree(w, n, Max(v.inodes[n].size, off + tot))
    requires 0 < m <= |src| - tot && off + |src| <= MAXFILE * BSIZE && Written(v, n, off, src, tot, w)
    requires Chunk(sb, w, x, y, n, off + tot, a, src[tot..tot + m])
    requires p < Max(v.inodes[n].size, off + tot + m)
    ensures HasFile(y, n)
    ensures ByteAt(y, n, p) == if off <= p < off + tot + m then src[p - off] else ByteAt(v, n, p)
  {
    hide ByteAt, At, Splice, Mapped;
    var q := off + tot;
    var k, s := q / BSIZE, src[tot..tot + m];
    SteppedByte(sb, w, x, y, n, k, a, q % BSIZE, s, p);
    ChunkArith(q, m, p);
    if q <= p < q + m {
      assert ByteAt(y, n, p) == s[p - q];
    } else {
      assert ByteAt(y, n, p) == ByteAt(w, n, p) by {
        if p / BSIZE == k { assert At(w, n, k) != 0; }
      }
    }
  }

  /** The contents of a file after `src` was written at `off`. */
  function Overwrite(c: seq<byte>, off: nat, src: seq<byte>): (r: seq<byte>)
    requires off <= |c|
  {
    c[..off] + src + if off + |src| < |c| then c[off + |src|..] else []
  }

  function SetSize(inodes: seq<Inode>, n: nat, z: nat): (r: seq<Inode>)
    requires n < |inodes|
    ensures |r| == |inodes|
  {
    inodes[n := inodes[n].(size := z)]
  }

  /** The size in an inode does not matter to where blocks are. */
  lemma SizeKeeps(sb: Super, v: Vol, n: nat, z: nat, w: Vol)
    requires Good(sb, v) && n < |v.inodes| && w == v.(inodes := SetSize(v.inodes, n, z))
    ensures Good(sb, w)
    ensures SamePlaces(v, w)
  {
    forall s: Slot | GoodSlot(v.inodes, s)
      ensures GoodSlot(w.inodes, s) && AddrOf(w.disk, w.inodes, s) == AddrOf(v.disk, v.inodes, s)
    {
    }
    forall s: Slot | GoodSlot(w.inodes, s) && AddrOf(w.disk, w.inodes, s) != 0
      ensures AddrOf(w.disk, w.inodes, s) in w.owner && w.owner[AddrOf(w.disk, w.inodes, s)] == s
    {
      assert GoodSlot(v.inodes, s);
    }
    forall a | a in w.owner
      ensures GoodSlot(w.inodes, w.owner[a]) && AddrOf(w.disk, w.inodes, w.owner[a]) == a
    {
      assert GoodSlot(v.inodes, v.owner[a]) && AddrOf(v.disk, v.inodes, v.owner[a]) == a;
    }
    SameMap(sb, v.disk, w.disk, w.owner.Keys);
    forall m: nat, k: nat | m < |v.inodes| && k < MAXFILE
      ensures At(w, m, k) == At(v, m, k)
    {
      assert GoodSlot(v.inodes, SlotOf(m, k));
    }
  }

  /** The volume that `writei` leaves when its loop ends in `w`. */
  ghost function Finished(w: Vol, n: nat, end: nat): (r: Vol)
    requires n < |w.inodes|
  {
    if end > w.inodes[n].size then w.(inodes := SetSize(w.inodes, n, end)) else w
  }

  /** Both volumes have the same blocks in the same places. */
  ghost predicate SamePlaces(v: Vol, w: Vol) {
    && |w.inodes| == |v.inodes| && w.disk == v.disk
    && (forall m: nat :: m < |v.inodes| ==> HasFile(v, m) && HasFile(w, m))
    && forall m: nat, k: nat :: m < |v.inodes| && k < MAXFILE ==> At(w, m, k) == At(v, m, k)
  }

  lemma FinishedKeeps(sb: Super, w: Vol, n: nat, end: nat, f: Vol)
    requires Good(sb, w) && n < |w.inodes| && f == Finished(w, n, end)
    ensures Good(sb, f) && SamePlaces(w, f)
  {
    if end > w.inodes[n].size { SizeKeeps(sb, w, n, end, f); }
  }

  /** `writei` overwrites exactly the range it was given, extends the file if need be, and
      leaves every other file as it was. */
  lemma WritingEnd(sb: Super, v: Vol, n: nat, off: nat, src: seq<byte>, w: Vol, f: Vol)
    requires Writing(sb, v, n, off, src, |src|, w) && f == Finished(w, n, off + |src|)
    ensures Good(sb, f) && Files(f) && SameInodes(v, f, n)
    ensures HasFile(v, n) && HasFile(f, n) && v.inodes[n].size <= MAXFILE * BSIZE && f.inodes[n].size <= MAXFILE * BSIZE
    ensures Content(f, n) == Overwrite(Content(v, n), off, src)
    ensures forall m: nat :: m < |v.inodes| && m != n ==> Content(f, m) == Content(v, m)
    ensures off + |src| <= v.inodes[n].size ==> f.inodes == v.inodes
    ensures f.inodes == v.inodes[n := f.inodes[n]]
  {
    var end := off + |src|;
    FinishedKeeps(sb, w, n, end, f);
    forall m: nat | m < |v.inodes|
      ensures HoleFree(v, m, v.inodes[m].size) && HoleFree(f, m, f.inodes[m].size)
    {
      FinishedHoleFree(v, w, f, n, end, m);
    }
    WrittenContent(v, n, off, src, w, f);
    forall m: nat | m < |v.inodes| && m != n
      ensures Content(f, m) == Content(v, m)
    {
      OtherContent(sb, v, w, f, n, end, m);
    }
  }

  /** All inodes but that of file `n` are as they were, and that one has its type; all sizes are
      within bounds. */
  ghost predicate SameInodes(v: Vol, f: Vol, n: nat) {
    && |f.inodes| == |v.inodes|
    && forall m: nat :: m < |v.inodes| ==>
         && HasFile(v, m) && HasFile(f, m) && v.inodes[m].size <= MAXFILE * BSIZE && f.inodes[m].size <= MAXFILE * BSIZE
         && f.inodes[m].kind == v.inodes[m].kind && (m != n ==> f.inodes[m] == v.inodes[m])
  }

  lemma WrittenContent(v: Vol, n: nat, off: nat, src: seq<byte>, w: Vol, f: Vol)
    requires HasFile(v, n) && HasFile(w, n) && off <= v.inodes[n].size <= MAXFILE * BSIZE
    requires w.inodes[n].size == v.inodes[n].size && off + |src| <= MAXFILE * BSIZE
    requires Written(v, n, off, src, |src|, w) && f == Finished(w, n, off + |src|) && SamePlaces(w, f)
    ensures HasFile(f, n) && f.inodes[n].size <= MAXFILE * BSIZE
    ensures Content(f, n) == Overwrite(Content(v, n), off, src)
  {
    var r := Overwrite(Content(v, n), off, src);
    assert f.inodes[n].size == Max(v.inodes[n].size, off + |src|) == |r|;
    forall p | 0 <= p < f.inodes[n].size
      ensures Content(f, n)[p] == r[p]
    {
      assert At(f, n, p / BSIZE) == At(w, n, p / BSIZE);
      assert ByteAt(f, n, p) == ByteAt(w, n, p);
    }
  }

  lemma FinishedHoleFree(v: Vol, w: Vol, f: Vol, n: nat, end: nat, m: nat)
    requires SameButFile(v, w, n) && n < |v.inodes| && m < |v.inodes| && f == Finished(w, n, end)
    requires HoleFree(w, n, Max(v.inodes[n].size, end)) && HoleFree(v, m, v.inodes[m].size)
    requires SamePlaces(w, f)
    ensures HoleFree(f, m, f.inodes[m].size)
  {
    forall k: nat | k < MAXFILE
      ensures At(f, m, k) != 0 <==> k * BSIZE < f.inodes[m].size
    {
      assert At(f, m, k) == At(w, m, k);
      if m != n {
        assert SameBlock(v, w, m, k);
        assert At(v, m, k) != 0 <==> k * BSIZE < v.inodes[m].size;
      } else {
        assert At(w, n, k) != 0 <==> k * BSIZE < Max(v.inodes[n].size, end);
      }
    }
  }

  lemma OtherContent(sb: Super, v: Vol, w: Vol, f: Vol, n: nat, end: nat, m: nat)
    requires SameButFile(v, w, n) && n < |v.inodes| && m < |v.inodes| && m != n && f == Finished(w, n, end)
    requires Good(sb, v) && Good(sb, w) && HoleFree(v, m, v.inodes[m].size)
    requires SamePlaces(w, f)
    ensures HasFile(v, m) && HasFile(f, m) && v.inodes[m].size == f.inodes[m].size <= MAXFILE * BSIZE
    ensures Content(f, m) == Content(v, m)
  {
    forall p | 0 <= p < v.inodes[m].size
      ensures ByteAt(f, m, p) == ByteAt(v, m, p)
    {
      assert SameBlock(v, w, m, p / BSIZE);
      assert At(f, m, p / BSIZE) == At(w, m, p / BSIZE);
    }
  }
}
