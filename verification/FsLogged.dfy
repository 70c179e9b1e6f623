/** The blocks a transaction gives to `log_write`, and the budget that `filewrite` keeps by
    writing a few blocks at a time. */
module FsLogged {
  import opened Bytes
  import opened Common
  import opened FsModel
  import opened FsFiles
  import LogDisk

  const MAXOPBLOCKS: nat := LogDisk.MAXOPBLOCKS

  /** The most bytes that `filewrite` writes in one transaction. */
  const MAXCHUNK: nat := (MAXOPBLOCKS - 1 - 1 - 2) / 2 * 512

  /** The blocks of file `n` from position `lo` up to `hi`. */
  ghost function DataBlocks(v: Vol, n: nat, lo: nat, hi: nat): (r: set<nat>)
    requires HasFile(v, n) && hi <= MAXFILE
  {
    if hi <= lo then {} else DataBlocks(v, n, lo, hi - 1) + {At(v, n, hi - 1)}
  }

  /** The blocks of the free map with the bits of those blocks. */
  ghost function DataMaps(sb: Super, v: Vol, n: nat, lo: nat, hi: nat): (r: set<nat>)
    requires HasFile(v, n) && hi <= MAXFILE
  {
    if hi <= lo then {} else DataMaps(sb, v, n, lo, hi - 1) + {MapBlock(sb, At(v, n, hi - 1))}
  }

  /** The indirect block of file `n`, if any, and the block of the free map with its bit. */
  ghost function IndirectBlocks(sb: Super, v: Vol, n: nat): (r: set<nat>)
    requires HasFile(v, n)
    ensures |r| <= 2
  {
    var ind := v.inodes[n].addrs[NDIRECT];
    if ind == 0 then {} else {ind, MapBlock(sb, ind)}
  }

  lemma {:induction false} DataCount(sb: Super, v: Vol, n: nat, lo: nat, hi: nat)
    requires HasFile(v, n) && hi <= MAXFILE
    ensures |DataBlocks(v, n, lo, hi)| <= (if lo < hi then hi - lo else 0)
    ensures |DataMaps(sb, v, n, lo, hi)| <= (if lo < hi then hi - lo else 0)
  {
    if lo < hi { DataCount(sb, v, n, lo, hi - 1); }
  }

  /** Blocks stay in the sets when the file grows. */
  lemma {:induction false} DataGrow(sb: Super, v: Vol, w: Vol, n: nat, lo: nat, hi: nat, hi': nat)
    requires HasFile(v, n) && HasFile(w, n) && hi <= hi' <= MAXFILE
    requires forall k: nat :: lo <= k < hi ==> At(w, n, k) == At(v, n, k)
    ensures DataBlocks(v, n, lo, hi) <= DataBlocks(w, n, lo, hi')
    ensures DataMaps(sb, v, n, lo, hi) <= DataMaps(sb, w, n, lo, hi')
  {
    hide At, MapBlock, GoodInode;
    if lo < hi' {
      if hi < hi' {
        DataGrow(sb, v, w, n, lo, hi, hi' - 1);
      } else {
        DataGrow(sb, v, w, n, lo, hi - 1, hi' - 1);
      }
    }
  }

  /** One past the last block that the first `tot` bytes at `off` touch. */
  function Hi(off: nat, tot: nat): (h: nat) {
    if tot == 0 then off / BSIZE else (off + tot - 1) / BSIZE + 1
  }

  /** The first block that begins at `off` or later. */
  function Up(off: nat): (h: nat) {
    (off + BSIZE - 1) / BSIZE
  }

  /** `now` adds to `was` only blocks of `extra`. */
  ghost predicate LogsOnly(was: set<nat>, now: set<nat>, extra: set<nat>) {
    now <= was + extra
  }

  /** From `d` to `e`, every block that changed was given to `log_write`. */
  ghost predicate Tracked(d: seq<Block>, e: seq<Block>, was: set<nat>, now: set<nat>) {
    was <= now && |e| == |d| && forall b: nat :: b < |d| && b !in now ==> e[b] == d[b]
  }

  lemma TrackedTrans(d: seq<Block>, e: seq<Block>, f: seq<Block>, was: set<nat>, mid: set<nat>, now: set<nat>)
    requires Tracked(d, e, was, mid) && Tracked(e, f, mid, now)
    ensures Tracked(d, f, was, now)
  {
  }

  /** One transaction on intact files: files are intact again, and every block of the disk and every
      inode that changed was logged. */
  ghost predicate Transaction(sb: Super, v: Vol, w: Vol, t: set<nat>) {
    && Good(sb, v) && Files(v) && Good(sb, w) && Files(w) && |w.inodes| == |v.inodes|
    && |w.disk| == |v.disk| && (forall b: nat :: b < |v.disk| && b !in t ==> w.disk[b] == v.disk[b])
    && forall m: nat :: m < |v.inodes| && w.inodes[m] != v.inodes[m] ==> sb.inodestart + m / IPB in t
  }

  lemma IsTransaction(sb: Super, v: Vol, w: Vol, n: nat, was: set<nat>, t: set<nat>)
    requires Good(sb, v) && Files(v) && Good(sb, w) && Files(w) && Tracked(v.disk, w.disk, was, t)
    requires n < |v.inodes| == |w.inodes|
    requires w.inodes == v.inodes || (w.inodes == v.inodes[n := w.inodes[n]] && sb.inodestart + n / IPB in t)
    ensures Transaction(sb, v, w, t)
  {
  }

  /** What the first `tot` bytes written at `off` may log: the blocks they touch, the map blocks of
      those that begin at `off` or later, and the indirect block with its map block. */
  ghost function Loggable(sb: Super, v: Vol, n: nat, off: nat, tot: nat): (r: set<nat>)
    requires HasFile(v, n) && Hi(off, tot) <= MAXFILE
  {
    IndirectBlocks(sb, v, n) + DataBlocks(v, n, off / BSIZE, Hi(off, tot)) + DataMaps(sb, v, n, Up(off), Hi(off, tot))
  }

  ghost predicate Logs(sb: Super, was: set<nat>, now: set<nat>, v: Vol, n: nat, off: nat, tot: nat) {
    && HasFile(v, n) && Hi(off, tot) <= MAXFILE
    && LogsOnly(was, now, Loggable(sb, v, n, off, tot))
  }

  lemma LogsStart(sb: Super, was: set<nat>, v: Vol, n: nat, off: nat)
    requires HasFile(v, n) && off <= MAXFILE * BSIZE
    ensures Logs(sb, was, was, v, n, off, 0)
  {
  }

  lemma HiArith(off: nat, tot: nat, m: nat)
    requires 0 < m && (off + tot) % BSIZE + m <= BSIZE
    ensures Hi(off, tot) <= Hi(off, tot + m) == (off + tot) / BSIZE + 1
    ensures forall k: nat :: k < Hi(off, tot) ==> k * BSIZE <= off || k * BSIZE < off + tot
  {
    var q := off + tot;
    assert q == BSIZE * (q / BSIZE) + q % BSIZE;
    assert off == BSIZE * (off / BSIZE) + off % BSIZE;
    assert tot > 0 ==> q - 1 == BSIZE * ((q - 1) / BSIZE) + (q - 1) % BSIZE;
    assert q + m - 1 == BSIZE * ((q + m - 1) / BSIZE) + (q + m - 1) % BSIZE;
  }

  /** A block that had to be allocated begins at `off` or later. */
  lemma NewArith(off: nat, k: nat)
    requires k * BSIZE >= off
    ensures Up(off) <= k
  {
    assert off + BSIZE - 1 == BSIZE * Up(off) + (off + BSIZE - 1) % BSIZE;
  }

  /** What one call of `bmap` may log. */
  ghost function MapLogs(sb: Super, w: Vol, x: Vol, n: nat, k: nat, a: nat): (r: set<nat>)
    requires HasFile(w, n) && HasFile(x, n) && k < MAXFILE
  {
    IndirectBlocks(sb, x, n) + {a} + if At(w, n, k) == 0 then {MapBlock(sb, a)} else {}
  }

  /** One round of `writei`: `bmap` logged what it logs, and then the data block was logged. */
  lemma LogsNext(sb: Super, was: set<nat>, now: set<nat>, now': set<nat>,
                 w: Vol, x: Vol, y: Vol, n: nat, off: nat, tot: nat, a: nat, s: seq<byte>, m: nat, z: nat)
    requires |s| == m && Logs(sb, was, now, w, n, off, tot) && HoleFree(w, n, z) && off + tot <= z
    requires Chunk(sb, w, x, y, n, off + tot, a, s)
    requires HasFile(x, n) && (off + tot) / BSIZE < MAXFILE
    requires LogsOnly(now, now', MapLogs(sb, w, x, n, (off + tot) / BSIZE, a))
    ensures Logs(sb, was, now', y, n, off, tot + m)
  {
    var k := (off + tot) / BSIZE;
    assert At(y, n, k) == a && SameButBlock(x, y, n, k) by {
      PutBlock(sb, x, n, k, a, Splice(x.disk[a], (off + tot) % BSIZE, s), y);
    }
    HiArith(off, tot, m);
    AtKept(w, x, y, n, off, tot, z, k);
    if At(w, n, k) == 0 { NewArith(off, k); }
    LogsGrow(sb, w, x, y, n, off, tot, k, a, m);
  }

  lemma LogsGrow(sb: Super, w: Vol, x: Vol, y: Vol, n: nat, off: nat, tot: nat, k: nat, a: nat, m: nat)
    requires HasFile(w, n) && HasFile(x, n) && HasFile(y, n) && k < MAXFILE && Hi(off, tot) <= Hi(off, tot + m) == k + 1
    requires forall l: nat :: off / BSIZE <= l < Hi(off, tot) ==> At(y, n, l) == At(w, n, l)
    requires At(y, n, k) == a && off / BSIZE <= k && (At(w, n, k) == 0 ==> Up(off) <= k)
    requires w.inodes[n].addrs[NDIRECT] != 0 ==> x.inodes[n].addrs[NDIRECT] == w.inodes[n].addrs[NDIRECT]
    requires y.inodes == x.inodes
    ensures Loggable(sb, w, n, off, tot) <= Loggable(sb, y, n, off, tot + m)
    ensures MapLogs(sb, w, x, n, k, a) <= Loggable(sb, y, n, off, tot + m)
  {
    hide At, HasFile;
    var lo, hi, hi' := off / BSIZE, Hi(off, tot), Hi(off, tot + m);
    assert lo <= Up(off);
    DataGrow(sb, w, y, n, lo, hi, hi');
    DataGrow(sb, w, y, n, Up(off), hi, hi');
    assert a in DataBlocks(y, n, lo, hi');
  }

  /** Blocks that were already written stay where they are. */
  lemma AtKept(w: Vol, x: Vol, y: Vol, n: nat, off: nat, tot: nat, z: nat, k: nat)
    requires k == (off + tot) / BSIZE < MAXFILE && HoleFree(w, n, z) && off + tot <= z && Hi(off, tot) <= k + 1
    requires SameButBlock(w, x, n, k) && SameButBlock(x, y, n, k) && n < |w.inodes|
    requires At(w, n, k) != 0 ==> At(x, n, k) == At(w, n, k)
    requires At(y, n, k) == At(x, n, k)
    ensures forall l: nat :: off / BSIZE <= l < Hi(off, tot) ==> At(y, n, l) == At(w, n, l)
    ensures At(w, n, k) == 0 ==> off <= k * BSIZE
  {
    assert At(w, n, k) != 0 <==> k * BSIZE < z;
    forall l: nat | off / BSIZE <= l < Hi(off, tot)
      ensures At(y, n, l) == At(w, n, l)
    {
      if l != k {
        assert SameBlock(w, x, n, l) && SameBlock(x, y, n, l);
      } else {
        LastArith(off, tot);
      }
    }
  }

  lemma LastArith(off: nat, tot: nat)
    requires (off + tot) / BSIZE < Hi(off, tot)
    ensures (off + tot) / BSIZE * BSIZE < off + tot
  {
    var q := off + tot;
    assert q == BSIZE * (q / BSIZE) + q % BSIZE;
    assert tot > 0 ==> q - 1 == BSIZE * ((q - 1) / BSIZE) + (q - 1) % BSIZE;
  }

  /** The size does not matter to which blocks a file has. */
  lemma {:induction false} SameDataBlocks(sb: Super, w: Vol, f: Vol, n: nat, lo: nat, hi: nat)
    requires SamePlaces(w, f) && n < |w.inodes| && hi <= MAXFILE
    ensures HasFile(w, n) && HasFile(f, n) && DataBlocks(f, n, lo, hi) == DataBlocks(w, n, lo, hi)
    ensures DataMaps(sb, f, n, lo, hi) == DataMaps(sb, w, n, lo, hi)
  {
    if lo < hi { SameDataBlocks(sb, w, f, n, lo, hi - 1); }
  }

  lemma FinishLogs(sb: Super, n: nat, off: nat, len: nat, w: Vol, f: Vol, was: set<nat>, now: set<nat>, now': set<nat>)
    requires Good(sb, w) && Logs(sb, was, now, w, n, off, len) && now' <= now + {sb.inodestart + n / IPB}
    requires f == Finished(w, n, off + len)
    ensures Logs(sb, was + {sb.inodestart + n / IPB}, now', f, n, off, len)
  {
    FinishedKeeps(sb, w, n, off + len, f);
    SameDataBlocks(sb, w, f, n, off / BSIZE, Hi(off, len));
    SameDataBlocks(sb, w, f, n, Up(off), Hi(off, len));
  }

  lemma ChunkBlocks(off: nat, len: nat)
    requires len <= MAXCHUNK
    ensures Hi(off, len) <= off / BSIZE + 4
    ensures Hi(off, len) <= Up(off) + 3
  {
    assert off == BSIZE * (off / BSIZE) + off % BSIZE;
    assert off + BSIZE - 1 == BSIZE * Up(off) + (off + BSIZE - 1) % BSIZE;
    if len > 0 {
      var e := off + len - 1;
      assert e == BSIZE * (e / BSIZE) + e % BSIZE;
    }
  }

  /** A chunk of `filewrite` logs at most MAXOPBLOCKS blocks, however many blocks the free map has:
      the inode, the indirect block and its map block, and either three data blocks with
      their map blocks, or four of which the first was there already. */
  lemma ChunkFitsOp(sb: Super, was: set<nat>, now: set<nat>, v: Vol, n: nat, off: nat, len: nat)
    requires Logs(sb, was + {sb.inodestart + n / IPB}, now, v, n, off, len) && len <= MAXCHUNK
    ensures |now - was| <= MAXOPBLOCKS
  {
    var ib := {sb.inodestart + n / IPB};
    var i, d, m := IndirectBlocks(sb, v, n), DataBlocks(v, n, off / BSIZE, Hi(off, len)), DataMaps(sb, v, n, Up(off), Hi(off, len));
    ChunkBlocks(off, len);
    DataCount(sb, v, n, off / BSIZE, Hi(off, len));
    DataCount(sb, v, n, Up(off), Hi(off, len));
    UnionCount(i, d);
    UnionCount(i + d, m);
    UnionCount(ib, i + d + m);
    SubsetCount(now - was, ib + (i + d + m));
  }

  lemma AddrSmall(sb: Super, v: Vol, n: nat, k: nat)
    requires Good(sb, v) && n < |v.inodes| && k < MAXFILE && sb.size <= BPB
    ensures HasFile(v, n) && MapBlock(sb, At(v, n, k)) == sb.bmapstart
  {
    hide MapIs, WellSized;
    assert GoodSlot(v.inodes, SlotOf(n, k));
    SmallQuotient(At(v, n, k));
  }

  lemma SmallQuotient(a: nat)
    ensures a < BPB ==> a / BPB == 0
  {
  }

  /** With a free map of one block, all map blocks are that one. */
  lemma {:induction false} OneMapBlock(sb: Super, v: Vol, n: nat, lo: nat, hi: nat)
    requires Good(sb, v) && n < |v.inodes| && HasFile(v, n) && hi <= MAXFILE && sb.size <= BPB
    ensures DataMaps(sb, v, n, lo, hi) <= {sb.bmapstart}
  {
    hide Good, At, MapBlock;
    if lo < hi {
      OneMapBlock(sb, v, n, lo, hi - 1);
      AddrSmall(sb, v, n, hi - 1);
    }
  }

  lemma OneIndirect(sb: Super, v: Vol, n: nat)
    requires Good(sb, v) && n < |v.inodes| && HasFile(v, n) && sb.size <= BPB
    ensures IndirectBlocks(sb, v, n) <= {v.inodes[n].addrs[NDIRECT], sb.bmapstart}
  {
    hide Good;
    IndirectSmall(sb, v, n);
  }

  lemma IndirectSmall(sb: Super, v: Vol, n: nat)
    requires Good(sb, v) && n < |v.inodes| && HasFile(v, n)
    ensures v.inodes[n].addrs[NDIRECT] < sb.size
  {
    hide MapIs;
    var s := Indirect(n);
    assert GoodSlot(v.inodes, s) && AddrOf(v.disk, v.inodes, s) == v.inodes[n].addrs[NDIRECT];
  }

  /** A chunk touches at most four blocks of the file, and with a free map of one block it logs at
      most seven: those, their map block, the indirect block and the inode. */
  lemma ChunkFitsSeven(sb: Super, was: set<nat>, now: set<nat>, v: Vol, n: nat, off: nat, len: nat)
    requires Good(sb, v) && n < |v.inodes| && sb.size <= BPB
    requires Logs(sb, was + {sb.inodestart + n / IPB}, now, v, n, off, len) && len <= MAXCHUNK
    ensures Hi(off, len) <= off / BSIZE + 4 && |now - was| <= 7
  {
    hide Good, DataBlocks, DataMaps, IndirectBlocks, Hi, Up;
    var d, ind := DataBlocks(v, n, off / BSIZE, Hi(off, len)), v.inodes[n].addrs[NDIRECT];
    var two := {sb.inodestart + n / IPB, sb.bmapstart};
    ChunkBlocks(off, len);
    DataCount(sb, v, n, off / BSIZE, Hi(off, len));
    OneMapBlock(sb, v, n, Up(off), Hi(off, len));
    OneIndirect(sb, v, n);
    UnionCount({ind}, d);
    UnionCount(two, {ind} + d);
    SubsetCount(now - was, two + ({ind} + d));
  }
}
