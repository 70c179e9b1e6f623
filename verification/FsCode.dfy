/** fs.c and the write loop of file.c over the blocks and inodes of one disk.

    `disk` is what a reader of each block sees through the buffer cache and the log, `inodes`
    the in-memory inodes and `dinodes` their copies in the inode blocks.  A panic is reported
    in a result; the state after one is left open. */
module FsCode {
  import opened Bytes
  import opened Common
  import opened FsModel
  import opened FsFiles
  import opened FsTrunc
  import opened FsLogged

  lemma MapArith(b: nat, bi: nat)
    requires b % BPB == 0 && bi < BPB
    ensures (b + bi) / BPB == b / BPB && (b + bi) % BPB == bi && (b + bi) % 8 == bi % 8
  {
    assert b == BPB * (b / BPB);
    assert b + bi == 8 * (512 * (b / BPB)) + bi;
  }

  lemma NextMap(b: nat)
    requires b % BPB == 0
    ensures (b + BPB) % BPB == 0
  {
  }

  lemma Sized(sb: Super, disk: seq<Block>)
    requires WellSized(sb, disk)
    ensures sb.datastart <= sb.size == |disk| && forall b :: 0 <= b < sb.size ==> |disk[b]| == BSIZE
  {
  }

  /** The bit that `balloc` tests and sets at offset `bi` of the map block for `b`. */
  lemma BitOfBlock(sb: Super, disk: seq<Block>, b: nat, bi: nat)
    requires WellSized(sb, disk) && MapBlock(sb, b) < |disk| && b % BPB == 0 && bi < BPB
    ensures MapBlock(sb, b + bi) == MapBlock(sb, b) && |disk[MapBlock(sb, b)]| == BSIZE
    ensures var m: Block := disk[MapBlock(sb, b)];
            && Used(sb, disk, b + bi) == Bit(m[bi / 8], bi % 8) && 0 <= SetBit(m[bi / 8], bi % 8) < 256
            && Mark(sb, disk, b + bi, true) == disk[MapBlock(sb, b) := m[bi / 8 := SetBit(m[bi / 8], bi % 8)]]
  {
    hide Bit, SetBit, ClearBit;
    MapArith(b, bi);
    ByteFits(disk[MapBlock(sb, b)][bi / 8], bi % 8);
  }

  class FileSystem {
    const sb: Super
    var disk: seq<Block>
    var inodes: seq<Inode>
    var dinodes: seq<Inode>
    ghost var owner: map<nat, Slot>
    ghost var logged: set<nat>  // blocks given to log_write in this transaction

    ghost function Now(): (v: Vol)
      reads this
    {
      Vol(disk, inodes, owner)
    }

    ghost predicate Valid()
      reads this
    {
      Good(sb, Now()) && |dinodes| == |inodes|
    }

    /** Between operations: no holes, and every inode on disk is up to date. */
    ghost predicate Settled()
      reads this
    {
      Valid() && Files(Now()) && dinodes == inodes
    }

    /** A disk with an intact file system on it. */
    constructor (sb: Super, disk: seq<Block>, inodes: seq<Inode>, ghost owner: map<nat, Slot>)
      requires Good(sb, Vol(disk, inodes, owner)) && Files(Vol(disk, inodes, owner))
      ensures Settled() && this.sb == sb && Now() == Vol(disk, inodes, owner) && logged == {}
    {
      this.sb, this.disk, this.inodes, this.dinodes := sb, disk, inodes, inodes;
      this.owner, logged := owner, {};
    }

    /** `balloc`: the first block whose bit is clear, marked and zeroed; None is the panic
        "out of blocks". */
    method Balloc() returns (r: Option<nat>)
      requires WellSized(sb, disk) && (forall b: nat :: b < sb.size ==> MapBlock(sb, b) < sb.datastart)
      requires forall b: nat :: b < sb.datastart ==> Used(sb, disk, b)
      modifies this`disk, this`logged
      ensures r.None? ==> forall b: nat :: b < sb.size ==> Used(sb, old(disk), b)
      ensures r.Some? ==>
                var b := r.value;
                && b < sb.size && !Used(sb, old(disk), b) && (forall c: nat :: c < b ==> Used(sb, old(disk), c))
                && disk == Mark(sb, old(disk), b, true)[b := ZeroBlock()]
                && logged == old(logged) + {MapBlock(sb, b), b} && Tracked(old(disk), disk, old(logged), logged)
    {
      hide Used, Mark, Bit, SetBit, MapBlock, WellSized;
      Sized(sb, disk);
      var b := 0;
      while b < sb.size
        invariant b % BPB == 0 && disk == old(disk) && logged == old(logged)
        invariant forall c: nat :: c < b && c < sb.size ==> Used(sb, disk, c)
      {
        var m := disk[MapBlock(sb, b)];
        var bi := 0;
        NextMap(b);
        while bi < BPB && b + bi < sb.size
          invariant 0 <= bi <= BPB && b + bi <= sb.size && disk == old(disk) && logged == old(logged)
          invariant forall c: nat :: c < b + bi ==> Used(sb, disk, c)
        {
          BitOfBlock(sb, disk, b, bi);
          if !Bit(m[bi / 8], bi % 8) {
            m := m[bi / 8 := SetBit(m[bi / 8], bi % 8)];
            disk := disk[MapBlock(sb, b) := m];
            disk := disk[b + bi := ZeroBlock()];
            logged := logged + {MapBlock(sb, b), b + bi};
            return Some(b + bi);
          }
          bi := bi + 1;
        }
        b := b + BPB;
      }
      r := None;
    }

    /** `bfree`; the panic is "freeing free block". */
    method Bfree(b: nat) returns (panic: bool)
      requires WellSized(sb, disk) && b < sb.size && MapBlock(sb, b) < sb.size
      modifies this`disk, this`logged
      ensures panic <==> !Used(sb, old(disk), b)
      ensures !panic ==> disk == Mark(sb, old(disk), b, false) && logged == old(logged) + {MapBlock(sb, b)}
      ensures !panic ==> Tracked(old(disk), disk, old(logged), logged)
    {
      var m := disk[MapBlock(sb, b)];
      var bi := b % BPB;
      BitIndex(b);
      assert bi % 8 == b % 8 by { assert bi == 8 * (bi / 8) + b % 8; }
      if !Bit(m[bi / 8], bi % 8) {
        return true;
      }
      ByteFits(m[bi / 8], bi % 8);
      disk := disk[MapBlock(sb, b) := m[bi / 8 := ClearBit(m[bi / 8], bi % 8)]];
      logged := logged + {MapBlock(sb, b)};
      panic := false;
    }

    /** `iupdate`. */
    method Iupdate(n: nat)
      requires n < |inodes| == |dinodes|
      modifies this`dinodes, this`logged
      ensures dinodes == old(dinodes)[n := inodes[n]]
      ensures logged == old(logged) + {sb.inodestart + n / IPB}
    {
      dinodes := dinodes[n := inodes[n]];
      logged := logged + {sb.inodestart + n / IPB};
    }

    /** `ip->addrs[k] = balloc(...)`, for a direct slot that is empty. */
    method AllocDirect(n: nat, k: nat) returns (panic: bool, a: nat)
      requires Valid() && n < |inodes| && k < NDIRECT && inodes[n].addrs[k] == 0
      modifies this`disk, this`inodes, this`owner, this`logged
      ensures panic ==> Full(sb, owner)
      ensures !panic ==> Valid() && Mapped(sb, old(Now()), Now(), n, k, a)
      ensures !panic ==> LogsOnly(old(logged), logged, {a, MapBlock(sb, a)})
      ensures !panic ==> Tracked(old(disk), disk, old(logged), logged)
    {
      hide Owned, MapIs, Used, Mark, WellSized;
      MapFacts(sb, Now());
      var r := Balloc();
      if r.None? { return true, 0; }
      a := r.value;
      inodes := SetAddr(inodes, n, k, a);
      owner := owner[a := Direct(n, k)];
      MapDirect(sb, old(Now()), n, k, a, Now());
      panic := false;
    }

    /** `ip->addrs[NDIRECT] = balloc(...)`, on the way to block `k`. */
    method AllocIndirect(n: nat, k: nat) returns (panic: bool, a: nat)
      requires Valid() && n < |inodes| && NDIRECT <= k < MAXFILE && inodes[n].addrs[NDIRECT] == 0
      modifies this`disk, this`inodes, this`owner, this`logged
      ensures panic ==> Full(sb, owner)
      ensures !panic ==> Valid() && SameButBlock(old(Now()), Now(), n, k)
      ensures !panic ==> At(old(Now()), n, k) == 0 && At(Now(), n, k) == 0
      ensures !panic ==> inodes[n].addrs[NDIRECT] == a != 0 && LogsOnly(old(logged), logged, {a, MapBlock(sb, a)})
      ensures !panic ==> Tracked(old(disk), disk, old(logged), logged)
    {
      hide Owned, MapIs, Used, Mark, WellSized;
      MapFacts(sb, Now());
      var r := Balloc();
      if r.None? { return true, 0; }
      a := r.value;
      inodes := SetAddr(inodes, n, NDIRECT, a);
      owner := owner[a := Indirect(n)];
      MapIndirect(sb, old(Now()), n, k, a, Now());
      panic := false;
    }

    /** `a[k - NDIRECT] = balloc(...)`, for an entry of the indirect block that is empty. */
    method AllocEntry(n: nat, k: nat) returns (panic: bool, a: nat)
      requires Valid() && n < |inodes| && NDIRECT <= k < MAXFILE && inodes[n].addrs[NDIRECT] != 0
      requires At(Now(), n, k) == 0
      modifies this`disk, this`owner, this`logged
      ensures panic ==> Full(sb, owner)
      ensures !panic ==> Valid() && Mapped(sb, old(Now()), Now(), n, k, a)
      ensures !panic ==> LogsOnly(old(logged), logged, MapLogs(sb, old(Now()), Now(), n, k, a))
      ensures !panic ==> Tracked(old(disk), disk, old(logged), logged)
    {
      var ind := inodes[n].addrs[NDIRECT];
      IndirectOwned(sb, Now(), n);
      MapFacts(sb, Now());
      var r := Balloc();
      if r.None? { return true, 0; }
      a := r.value;
      disk := disk[ind := PutWord(disk[ind], k - NDIRECT, a)];
      logged := logged + {ind};
      owner := owner[a := Entry(n, k - NDIRECT)];
      MapEntry(sb, old(Now()), n, k, a, Now());
      panic := false;
    }

    /** `bmap`: the block number of block `k` of file `n`, allocated if need be. */
    method Bmap(n: nat, k: nat) returns (panic: bool, a: nat)
      requires Valid() && n < |inodes|
      modifies this`disk, this`inodes, this`owner, this`logged
      ensures panic <== k >= MAXFILE
      ensures k < MAXFILE && At(old(Now()), n, k) != 0 ==> !panic
      ensures panic && k < MAXFILE ==> Full(sb, owner)
      ensures !panic ==> Valid() && Mapped(sb, old(Now()), Now(), n, k, a)
      ensures !panic ==> LogsOnly(old(logged), logged, MapLogs(sb, old(Now()), Now(), n, k, a))
      ensures !panic && At(old(Now()), n, k) != 0 ==> logged == old(logged)
      ensures !panic ==> Tracked(old(disk), disk, old(logged), logged)
    {
      panic, a := false, 0;
      if k < NDIRECT {
        a := inodes[n].addrs[k];
        if a == 0 {
          panic, a := AllocDirect(n, k);
        } else {
          MapHit(sb, Now(), n, k);
        }
        return;
      }
      if k - NDIRECT < NINDIRECT {
        var ind := inodes[n].addrs[NDIRECT];
        if ind == 0 {
          panic, ind := AllocIndirect(n, k);
          if panic { return; }
        }
        ghost var w := Now();
        IndirectOwned(sb, w, n);
        a := Word(disk[ind], k - NDIRECT);
        if a == 0 {
          panic, a := AllocEntry(n, k);
          if panic { return; }
          if old(inodes)[n].addrs[NDIRECT] == 0 { MapTrans(sb, old(Now()), w, Now(), n, k, a); }
        } else {
          MapHit(sb, w, n, k);
        }
        return;
      }
      panic := true;
    }

    /** `readi` of a file: the bytes from `off` on, at most `cnt` and at most to the end.  It never
        allocates, and leaves everything as it was. */
    method Readi(n: nat, off: nat, cnt: nat) returns (panic: bool, r: int, data: seq<byte>)
      requires Settled() && n < |inodes| && off < WORD && cnt < WORD
      modifies this`disk, this`inodes, this`owner, this`logged
      ensures !panic && Now() == old(Now()) && logged == old(logged)
      ensures HoleFree(Now(), n, inodes[n].size)
      ensures r == -1 <==> off > inodes[n].size || off + cnt >= WORD
      ensures r != -1 ==> r == |data| == (if off + cnt > inodes[n].size then inodes[n].size - off else cnt)
      ensures r != -1 ==> data == Content(Now(), n)[off..off + r]
    {
      hide Good, Files, HoleFree, Mapped, LogsOnly, ReadSoFar, Content, MapLogs, At;
      ghost var v := Now();
      FilesFit(v, n);
      data := [];
      panic := false;
      if off > inodes[n].size || (off + cnt) % WORD < off {
        r := -1;
        return;
      }
      var left := cnt;
      if (off + cnt) % WORD > inodes[n].size {
        left := inodes[n].size - off;
      }
      var tot := 0;
      ReadStart(v, n, off, left);
      while tot < left
        invariant tot <= left && !panic && Now() == v && logged == old(logged)
        invariant ReadSoFar(v, n, off, left, tot, data)
      {
        BlockOfByte(v, n, off + tot);
        var a;
        panic, a := Bmap(n, (off + tot) / BSIZE);
        MapFound(sb, v, Now(), n, (off + tot) / BSIZE, a);
        var o := (off + tot) % BSIZE;
        var m := if left - tot < BSIZE - o then left - tot else BSIZE - o;
        ReadNext(sb, v, n, off, left, tot, data, o, m, a, data + v.disk[a][o..o + m]);
        data := data + disk[a][o..o + m];
        tot := tot + m;
      }
      ReadEnd(v, n, off, left, data);
      r := left;
    }

    /** One round of the loop of `writei`. */
    method WriteRound(n: nat, src: seq<byte>, off: nat, tot: nat, ghost v: Vol,
                      ghost was: set<nat>) returns (panic: bool, m: nat)
      requires Valid() && tot < |src| && Progress(sb, v, n, off, src, tot, Now(), was, logged)
      modifies this`disk, this`inodes, this`owner, this`logged
      ensures panic ==> Full(sb, owner)
      ensures !panic ==> 0 < m <= |src| - tot && Valid() && Progress(sb, v, n, off, src, tot + m, Now(), was, logged)
      ensures !panic ==> Tracked(old(disk), disk, old(logged), logged)
    {
      hide Writing, Logs, Mapped, LogsOnly, Good, MapLogs, Splice, Progress;
      ghost var w, l := Now(), logged;
      ProgressFacts(sb, v, n, off, src, tot, w, was, l);
      var a;
      m := 0;
      BlockInRange(off + tot);
      panic, a := Bmap(n, (off + tot) / BSIZE);
      if !panic {
        ghost var x, mid := Now(), logged;
        var o := (off + tot) % BSIZE;
        m := if |src| - tot < BSIZE - o then |src| - tot else BSIZE - o;
        MappedSized(sb, w, x, n, (off + tot) / BSIZE, a);
        disk := disk[a := Splice(disk[a], (off + tot) % BSIZE, src[tot..tot + m])];
        logged := logged + {a};
        RoundDone(sb, v, n, off, src, tot, w, x, a, m, Now(), was, l, mid, logged);
      }
    }

    /** `writei` to a file. */
    method Writei(n: nat, src: seq<byte>, off: nat) returns (panic: bool, r: int)
      requires Settled() && n < |inodes| && off < WORD && |src| < WORD
      modifies this`disk, this`inodes, this`dinodes, this`owner, this`logged
      ensures Good(sb, old(Now())) && Files(old(Now()))
      ensures r == -1 <==> off > old(inodes)[n].size || off + |src| >= WORD || off + |src| > MAXFILE * BSIZE
      ensures r == -1 ==> !panic && Now() == old(Now()) && dinodes == old(dinodes) && logged == old(logged)
      ensures panic ==> Full(sb, owner)
      ensures r != -1 && !panic ==> r == |src| && Settled() && WroteFile(old(Now()), Now(), n, off, src)
      ensures r != -1 && !panic ==>
                Logs(sb, old(logged) + {sb.inodestart + n / IPB}, logged, Now(), n, off, |src|)
      ensures r != -1 && !panic ==> Transaction(sb, old(Now()), Now(), logged)
    {
      hide Good, Files, HoleFree, Writing, Logs, WroteFile, Tracked, Transaction;
      ghost var v, was := Now(), logged;
      if off > inodes[n].size || (off + |src|) % WORD < off {
        return false, -1;
      }
      if (off + |src|) % WORD > MAXFILE * BSIZE {
        return false, -1;
      }
      WriteStart(sb, v, n, off, src, was);
      NothingTracked(disk, was);
      var tot := 0;
      while tot < |src|
        invariant tot <= |src| && dinodes == old(dinodes) && Valid()
        invariant Progress(sb, v, n, off, src, tot, Now(), was, logged) && Tracked(v.disk, disk, was, logged)
      {
        var m;
        ghost var d, l := disk, logged;
        panic, m := WriteRound(n, src, off, tot, v, was);
        if panic { return true, 0; }
        TrackedTrans(v.disk, d, disk, was, l, logged);
        tot := tot + m;
      }
      ghost var w, now := Now(), logged;
      ProgressFacts(sb, v, n, off, src, tot, w, was, now);
      if |src| > 0 && off + tot > inodes[n].size {
        inodes := SetSize(inodes, n, off + tot);
        Iupdate(n);
      }
      MoreTracked(disk, now, logged);
      WriteFinish(sb, v, n, off, src, w, Now(), was, now, logged, dinodes);
      TrackedTrans(v.disk, disk, disk, was, now, logged);
      IsTransaction(sb, v, Now(), n, was, logged);
      return false, |src|;
    }

    /** `filewrite` to a file, one transaction for each chunk of at most MAXCHUNK bytes.  The panic
        is that of `balloc`: the one for a short write is unreachable. */
    method Filewrite(f: OpenFile, src: seq<byte>) returns (panic: bool, r: int, ghost done: nat,
                     ghost txns: seq<set<nat>>, ghost vols: seq<Vol>)
      requires Settled() && f.inum < |inodes| && f.off < WORD
      modifies this`disk, this`inodes, this`dinodes, this`owner, this`logged, f`off
      ensures Files(old(Now()))
      ensures panic ==> Full(sb, owner)
      ensures !f.writable ==> !panic && r == -1 && done == 0 && Now() == old(Now()) && f.off == old(f.off)
      ensures !panic ==> Settled() && FileWriting(sb, old(Now()), Now(), f.inum, old(f.off), src, done, txns)
      ensures !panic ==> f.off == old(f.off) + done && r == if f.writable && done == |src| then |src| else -1
      ensures !panic ==> Transactions(sb, vols, txns) && vols[0] == old(Now()) && vols[|txns|] == Now()
      ensures !panic ==> Chunks(|src|, done, |txns|)
      ensures !panic && f.writable && src != [] ==>
                (done == |src| <==> old(f.off) <= old(inodes)[f.inum].size && old(f.off) + |src| <= MAXFILE * BSIZE)
    {
      hide Good, Files, HoleFree, Logs, FileWriting, WroteFile, Transaction, Chunks;
      ghost var v, n, off := Now(), f.inum, f.off;
      NoChunk(|src|);
      panic, done, txns, vols := false, 0, [], [v];
      FileWritingStart(sb, v, n, off, src);
      if !f.writable {
        r := -1;
        return;
      }
      var i := 0;
      var broke := false;
      while i < |src| && !broke
        invariant i <= |src| && Settled() && FileWriting(sb, v, Now(), n, off, src, i, txns)
        invariant f.off == off + i < WORD
        invariant Transactions(sb, vols, txns) && vols[0] == v && vols[|txns|] == Now()
        invariant Chunks(|src|, i, |txns|)
        invariant broke ==> off > v.inodes[n].size || off + |src| > MAXFILE * BSIZE
        invariant i == |src| > 0 ==> off <= v.inodes[n].size && off + |src| <= MAXFILE * BSIZE
        decreases |src| - i, !broke
      {
        var n1 := |src| - i;
        if n1 > MAXCHUNK {
          n1 := MAXCHUNK;
        }
        logged := {};
        ghost var w := Now();
        assert {} + {sb.inodestart + n / IPB} == {sb.inodestart + n / IPB};
        FileWritingSize(sb, v, w, n, off, src, i, txns);
        panic, r := Writei(f.inum, src[i..i + n1], f.off);
        if panic { return; }
        if r > 0 {
          f.off := f.off + r;
        }
        if r < 0 {
          broke := true;
        } else {
          assert r == n1;
          FileWritingNext(sb, v, w, Now(), n, off, src, i, n1, txns, logged);
          OneMoreTransaction(sb, vols, txns, w, Now(), logged);
          OneMoreChunk(|src|, i, n1, |txns|);
          txns, vols := txns + [logged], vols + [Now()];
          i := i + r;
        }
      }
      done := i;
      r := if i == |src| then |src| else -1;
    }

    /** The loop of `itrunc` over the direct blocks. */
    method TruncDirect(n: nat) returns (panic: bool)
      requires Valid() && n < |inodes|
      modifies this`disk, this`inodes, this`owner, this`logged
      ensures !panic && DirectFreed(sb, old(Now()), Now(), n, NDIRECT) && LogsMap(sb, old(logged), logged)
      ensures Tracked(old(disk), disk, old(logged), logged)
    {
      hide DirectFreed, Used, Mark, SetAddr, Tracked;
      NothingTracked(disk, logged);
      ghost var v := Now();
      DirectFreedStart(sb, v, n);
      panic := false;
      var i := 0;
      while i < NDIRECT
        invariant i <= NDIRECT && !panic && DirectFreed(sb, v, Now(), n, i) && LogsMap(sb, old(logged), logged)
        invariant Tracked(v.disk, disk, old(logged), logged)
      {
        ghost var w, l := Now(), logged;
        DirectFreedFacts(sb, v, w, n, i);
        FreeNextDirect(sb, v, w, n, i);
        var a := inodes[n].addrs[i];
        if a != 0 {
          panic := Bfree(a);
          TrackedTrans(v.disk, w.disk, disk, old(logged), l, logged);
          inodes := SetAddr(inodes, n, i, 0);
          owner := owner - {a};
        }
        i := i + 1;
      }
    }

    /** The part of `itrunc` for the indirect block. */
    method TruncIndirect(n: nat) returns (panic: bool)
      requires Valid() && n < |inodes| && inodes[n].addrs[NDIRECT] != 0
      modifies this`disk, this`inodes, this`owner, this`logged
      ensures !panic && LogsMap(sb, old(logged), logged) && IndirectFreed(sb, old(Now()), Now(), n)
      ensures Tracked(old(disk), disk, old(logged), logged)
    {
      hide Good, EntriesFreed, IndirectFreed, Used, Mark, SetAddr, EntryBlocks, Word, MapBlock, WellSized, Tracked;
      NothingTracked(disk, logged);
      ghost var w := Now();
      IndirectOwned(sb, w, n);
      EntriesFreedStart(sb, w, n);
      panic := false;
      var ind := inodes[n].addrs[NDIRECT];
      var a: Block := disk[ind];
      var j := 0;
      while j < NINDIRECT
        invariant j <= NINDIRECT && !panic && inodes == w.inodes && owner == w.owner
        invariant EntriesFreed(sb, w, disk, n, j) && LogsMap(sb, old(logged), logged)
        invariant Tracked(w.disk, disk, old(logged), logged)
      {
        EntriesFreedFacts(sb, w, disk, n, j);
        FreeNextEntry(sb, w, disk, n, j);
        if Word(a, j) != 0 {
          ghost var d, l := disk, logged;
          panic := Bfree(Word(a, j));
          TrackedTrans(w.disk, d, disk, old(logged), l, logged);
        }
        j := j + 1;
      }
      EntriesFreedFacts(sb, w, disk, n, j);
      FreeIndirect(sb, w, disk, n);
      ghost var d, l := disk, logged;
      panic := Bfree(ind);
      TrackedTrans(w.disk, d, disk, old(logged), l, logged);
      inodes := SetAddr(inodes, n, NDIRECT, 0);
      owner := owner - (EntryBlocks(owner, n, NINDIRECT) + {ind});
    }

    /** `itrunc`: file `n` gives back every block it has and nothing else; `bfree` never finds one of
        them free. */
    method Itrunc(n: nat) returns (panic: bool)
      requires Settled() && n < |inodes|
      modifies this`disk, this`inodes, this`dinodes, this`owner, this`logged
      ensures Files(old(Now()))
      ensures !panic && Settled() && Truncated(sb, old(Now()), Now(), n)
      ensures LogsMap(sb, old(logged) + {sb.inodestart + n / IPB}, logged)
      ensures Transaction(sb, old(Now()), Now(), logged)
    {
      hide Good, Files, DirectFreed, IndirectFreed, Emptied, Truncated, Tracked, Transaction;
      ghost var v := Now();
      panic := TruncDirect(n);
      ghost var w, l := Now(), logged;
      DirectFreedFacts(sb, v, w, n, NDIRECT);
      if inodes[n].addrs[NDIRECT] != 0 {
        panic := TruncIndirect(n);
        TrackedTrans(v.disk, w.disk, disk, old(logged), l, logged);
        EmptiedWithIndirect(sb, v, w, Now(), n);
      } else {
        EmptiedWithoutIndirect(sb, v, w, n);
      }
      ghost var x := Now();
      EmptiedOthers(sb, v, x, n);
      inodes := SetSize(inodes, n, 0);
      l := logged;
      Iupdate(n);
      MoreTracked(disk, l, logged);
      TrackedTrans(v.disk, disk, disk, old(logged), l, logged);
      TruncEnd(sb, v, x, n, Now());
      IsTransaction(sb, v, Now(), n, old(logged), logged);
    }
  }

  lemma NothingTracked(d: seq<Block>, was: set<nat>)
    ensures Tracked(d, d, was, was)
  {
  }

  lemma MoreTracked(d: seq<Block>, was: set<nat>, now: set<nat>)
    requires was <= now
    ensures Tracked(d, d, was, now)
  {
  }

  /** mkfs's `balloc`: a block of the free map with the first `used` bits set, which is how the kernel
      finds blocks in use. */
  method NewMap(used: nat) returns (m: Block)
    requires used < BPB
    ensures |m| == BSIZE
    ensures forall i: nat :: i < BPB ==> (Bit(m[i / 8], i % 8) <==> i < used)
  {
    m := ZeroBlock();
    var i := 0;
    NoBits();
    while i < used
      invariant i <= used && |m| == BSIZE && forall j: nat :: j < BPB ==> (Bit(m[j / 8], j % 8) <==> j < i)
    {
      ByteFits(m[i / 8], i % 8);
      ghost var was := m;
      m := m[i / 8 := SetBit(m[i / 8], i % 8)];
      forall j: nat | j < BPB
        ensures Bit(m[j / 8], j % 8) <==> j < i + 1
      {
        BitOfSet(was[i / 8], i % 8, j % 8);
        assert j / 8 == i / 8 && j % 8 == i % 8 ==> j == i;
      }
      i := i + 1;
    }
  }

  lemma NoBits()
    ensures forall j: nat :: j < BPB ==> !Bit(ZeroBlock()[j / 8], j % 8)
  {
    forall j: nat | j < BPB
      ensures !Bit(ZeroBlock()[j / 8], j % 8)
    {
      NoBit(j % 8);
    }
  }

  lemma {:induction false} NoBit(k: nat)
    ensures !Bit(0, k)
  {
    if k > 0 { NoBit(k - 1); }
  }

  /** With that block as its free map, a volume of one map block has exactly its metadata in use. */
  lemma NewMapIs(sb: Super, disk: seq<Block>)
    requires WellSized(sb, disk) && sb.size <= BPB && sb.bmapstart < sb.datastart
    requires forall i: nat :: i < BPB ==> (Bit(disk[sb.bmapstart][i / 8], i % 8) <==> i < sb.datastart)
    ensures MapIs(sb, disk, {})
  {
    forall b: nat | b < sb.size
      ensures MapBlock(sb, b) < sb.datastart && (Used(sb, disk, b) <==> b < sb.datastart)
    {
      SmallQuotient(b);
      assert b % BPB == b;
    }
  }

  /** A file system with no blocks in use but its own is intact. */
  lemma EmptyVolume(sb: Super, disk: seq<Block>, inodes: seq<Inode>)
    requires WellSized(sb, disk) && MapIs(sb, disk, {})
    requires forall n :: 0 <= n < |inodes| ==>
               GoodInode(inodes[n]) && inodes[n].size == 0 && forall i :: 0 <= i <= NDIRECT ==> inodes[n].addrs[i] == 0
    ensures Good(sb, Vol(disk, inodes, map[])) && Files(Vol(disk, inodes, map[]))
  {
    var v := Vol(disk, inodes, map[]);
    assert v.owner.Keys == {};
    forall s: Slot | GoodSlot(inodes, s)
      ensures AddrOf(disk, inodes, s) == 0
    {
    }
    forall n: nat | n < |inodes|
      ensures HoleFree(v, n, v.inodes[n].size)
    {
      EmptyHoleFree(v, n);
    }
  }

  /** From each volume to the next by one transaction. */
  ghost predicate Transactions(sb: Super, vols: seq<Vol>, txns: seq<set<nat>>) {
    && |vols| == |txns| + 1
    && forall k: nat :: k < |txns| ==> Links(sb, vols, txns, k)
  }

  ghost predicate Links(sb: Super, vols: seq<Vol>, txns: seq<set<nat>>, k: nat)
    requires k < |txns| && |vols| == |txns| + 1
  {
    Transaction(sb, vols[k], vols[k + 1], txns[k])
  }

  lemma OneMoreTransaction(sb: Super, vols: seq<Vol>, txns: seq<set<nat>>, v: Vol, w: Vol, t: set<nat>)
    requires Transactions(sb, vols, txns) && vols[|txns|] == v && Transaction(sb, v, w, t)
    ensures Transactions(sb, vols + [w], txns + [t]) && (vols + [w])[0] == vols[0]
  {
    forall k: nat | k < |txns| + 1
      ensures Links(sb, vols + [w], txns + [t], k)
    {
      if k < |txns| { assert Links(sb, vols, txns, k); }
    }
  }

  /** An open file of type FD_INODE: `struct file`. */
  class OpenFile {
    var inum: nat
    var off: nat
    var writable: bool
  }

  /** `filewrite` has written the first `i` bytes at `off`, in transactions that fit the log. */
  ghost predicate FileWriting(sb: Super, v: Vol, w: Vol, n: nat, off: nat, src: seq<byte>, i: nat,
                              txns: seq<set<nat>>) {
    && i <= |src| && n < |v.inodes| && Files(v)
    && (if off <= v.inodes[n].size then WroteFile(v, w, n, off, src[..i]) else i == 0 && w == v)
    && (forall t :: t in txns ==> |t| <= MAXOPBLOCKS && (sb.size <= BPB ==> |t| <= 7))
    && (0 < i ==> off + i <= MAXFILE * BSIZE)
  }

  lemma FileWritingStart(sb: Super, v: Vol, n: nat, off: nat, src: seq<byte>)
    requires n < |v.inodes| && Files(v)
    ensures FileWriting(sb, v, v, n, off, src, 0, [])
  {
    FilesFit(v, n);
    forall m: nat | m < |v.inodes|
      ensures HasFile(v, m) && v.inodes[m].size <= MAXFILE * BSIZE
    {
      FilesFit(v, m);
    }
    if off <= v.inodes[n].size {
      assert Overwrite(Content(v, n), off, src[..0]) == Content(v, n);
    }
  }

  /** The first `done` of `len` bytes took `k` transactions, of three blocks' worth each but the last. */
  ghost predicate Chunks(len: nat, done: nat, k: nat) {
    if done == len then k == (len + 1535) / 1536 else done < len && done == 1536 * k
  }

  lemma NoChunk(len: nat)
    ensures Chunks(len, 0, 0)
  {
  }

  lemma OneMoreChunk(len: nat, done: nat, n: nat, k: nat)
    requires Chunks(len, done, k) && done < len && n == if len - done > MAXCHUNK then MAXCHUNK else len - done
    ensures Chunks(len, done + n, k + 1)
  {
  }

  /** Writing at the end of what was just written is one longer write. */
  lemma OverwriteTwice(c: seq<byte>, off: nat, s: seq<byte>, t: seq<byte>)
    requires off <= |c|
    ensures off + |s| <= |Overwrite(c, off, s)|
    ensures Overwrite(Overwrite(c, off, s), off + |s|, t) == Overwrite(c, off, s + t)
  {
  }

  /** One transaction of `filewrite`. */
  lemma FileWritingNext(sb: Super, v: Vol, w: Vol, x: Vol, n: nat, off: nat, src: seq<byte>, i: nat, n1: nat,
                        txns: seq<set<nat>>, now: set<nat>)
    requires FileWriting(sb, v, w, n, off, src, i, txns) && n1 <= MAXCHUNK && i + n1 <= |src| && 0 < n1
    requires WroteFile(w, x, n, off + i, src[i..i + n1]) && off + i + n1 <= MAXFILE * BSIZE
    requires Good(sb, x) && Logs(sb, {sb.inodestart + n / IPB}, now, x, n, off + i, n1)
    ensures FileWriting(sb, v, x, n, off, src, i + n1, txns + [now])
  {
    hide Good, Logs, Files, HoleFree, Content;
    assert {} + {sb.inodestart + n / IPB} == {sb.inodestart + n / IPB};
    ChunkFitsOp(sb, {}, now, x, n, off + i, n1);
    if sb.size <= BPB { ChunkFitsSeven(sb, {}, now, x, n, off + i, n1); }
    assert now - {} == now;
    if off <= v.inodes[n].size {
      OverwriteTwice(Content(v, n), off, src[..i], src[i..i + n1]);
      assert src[..i] + src[i..i + n1] == src[..i + n1];
    }
  }

  /** What `filewrite` wrote can be read back. */
  lemma ReadBack(v: Vol, w: Vol, n: nat, off: nat, src: seq<byte>)
    requires WroteFile(v, w, n, off, src)
    ensures HasFile(w, n) && w.inodes[n].size <= MAXFILE * BSIZE && off + |src| <= w.inodes[n].size
    ensures Content(w, n)[off..off + |src|] == src
  {
  }

  /** The file's contents were overwritten at `off`; no other file changed. */
  ghost predicate WroteFile(v: Vol, w: Vol, n: nat, off: nat, src: seq<byte>) {
    && n < |v.inodes| && SameInodes(v, w, n) && off <= v.inodes[n].size
    && Content(w, n) == Overwrite(Content(v, n), off, src)
    && forall m: nat :: m < |v.inodes| && m != n ==> Content(w, m) == Content(v, m)
  }

  /** A byte within the file is in a block that exists. */
  lemma BlockOfByte(v: Vol, n: nat, q: nat)
    requires n < |v.inodes| && HoleFree(v, n, v.inodes[n].size) && q < v.inodes[n].size
    ensures q / BSIZE < MAXFILE && At(v, n, q / BSIZE) != 0
  {
    assert q / BSIZE * BSIZE <= q;
    assert At(v, n, q / BSIZE) != 0 <==> q / BSIZE * BSIZE < v.inodes[n].size;
  }

  lemma BlockInRange(q: nat)
    requires q < MAXFILE * BSIZE
    ensures q / BSIZE < MAXFILE
  {
  }

  /** `readi` has copied `tot` of `left` bytes from `off` on. */
  ghost predicate ReadSoFar(v: Vol, n: nat, off: nat, left: nat, tot: nat, data: seq<byte>) {
    && n < |v.inodes| && HoleFree(v, n, v.inodes[n].size) && off + left <= v.inodes[n].size && tot <= left
    && data == Content(v, n)[off..off + tot]
  }

  lemma FilesFit(v: Vol, n: nat)
    requires Files(v) && n < |v.inodes|
    ensures HoleFree(v, n, v.inodes[n].size) && v.inodes[n].size <= MAXFILE * BSIZE
  {
  }

  lemma FileFits(v: Vol, n: nat)
    requires n < |v.inodes| && HoleFree(v, n, v.inodes[n].size)
    ensures HasFile(v, n) && v.inodes[n].size <= MAXFILE * BSIZE
  {
  }

  lemma MapFound(sb: Super, v: Vol, w: Vol, n: nat, k: nat, a: nat)
    requires Mapped(sb, v, w, n, k, a) && At(v, n, k) != 0
    ensures w == v && a == At(v, n, k) && a < |v.disk| && |v.disk[a]| == BSIZE
  {
  }

  lemma ReadStart(v: Vol, n: nat, off: nat, left: nat)
    requires n < |v.inodes| && HoleFree(v, n, v.inodes[n].size) && off + left <= v.inodes[n].size
    ensures ReadSoFar(v, n, off, left, 0, [])
  {
  }

  lemma ReadEnd(v: Vol, n: nat, off: nat, left: nat, data: seq<byte>)
    requires ReadSoFar(v, n, off, left, left, data)
    ensures HasFile(v, n) && v.inodes[n].size <= MAXFILE * BSIZE && off + left <= |Content(v, n)|
    ensures |data| == left && data == Content(v, n)[off..off + left]
  {
  }

  lemma ReadNext(sb: Super, v: Vol, n: nat, off: nat, left: nat, tot: nat, data: seq<byte>, o: nat, m: nat, a: nat,
                 data': seq<byte>)
    requires Good(sb, v) && ReadSoFar(v, n, off, left, tot, data)
    requires 0 < m && tot + m <= left && o == (off + tot) % BSIZE && o + m <= BSIZE
    requires (off + tot) / BSIZE < MAXFILE && HasFile(v, n) && a == At(v, n, (off + tot) / BSIZE)
    requires a < |v.disk| && |v.disk[a]| == BSIZE && data' == data + v.disk[a][o..o + m]
    ensures ReadSoFar(v, n, off, left, tot + m, data')
  {
    hide Good, HoleFree, Content;
    FileFits(v, n);
    ReadChunk(sb, v, n, off + tot, m);
    SliceConcat(Content(v, n), off, off + tot, off + tot + m);
  }

  lemma SliceConcat<T>(c: seq<T>, i: nat, j: nat, k: nat)
    requires i <= j <= k <= |c|
    ensures c[i..j] + c[j..k] == c[i..k]
  {
  }

  /** The part of a block that `readi` copies is the part of the file it stands for. */
  lemma ReadChunk(sb: Super, v: Vol, n: nat, q: nat, m: nat)
    requires Good(sb, v) && n < |v.inodes| && HoleFree(v, n, v.inodes[n].size)
    requires q + m <= v.inodes[n].size && q % BSIZE + m <= BSIZE && q < v.inodes[n].size
    ensures q / BSIZE < MAXFILE && 0 < At(v, n, q / BSIZE) < sb.size
    ensures v.disk[At(v, n, q / BSIZE)][q % BSIZE..q % BSIZE + m] == Content(v, n)[q..q + m]
  {
    BlockOfByte(v, n, q);
    assert GoodSlot(v.inodes, SlotOf(n, q / BSIZE));
    FileFits(v, n);
    var xs := v.disk[At(v, n, q / BSIZE)][q % BSIZE..q % BSIZE + m];
    var ys := Content(v, n)[q..q + m];
    forall i | 0 <= i < m
      ensures xs[i] == ys[i]
    {
      ReadByte(v, n, q, m, i);
    }
  }

  lemma ReadByte(v: Vol, n: nat, q: nat, m: nat, i: nat)
    requires HasFile(v, n) && v.inodes[n].size <= MAXFILE * BSIZE && q / BSIZE < MAXFILE
    requires q + m <= v.inodes[n].size && q % BSIZE + m <= BSIZE && i < m
    requires 0 < At(v, n, q / BSIZE) < |v.disk| && |v.disk[At(v, n, q / BSIZE)]| == BSIZE
    ensures Content(v, n)[q + i] == v.disk[At(v, n, q / BSIZE)][q % BSIZE + i]
  {
    hide At;
    ChunkArith(q, m, q + i);
    assert Content(v, n)[q + i] == ByteAt(v, n, q + i);
  }

  /** `writei` has written `tot` bytes and logged what that takes. */
  ghost predicate Progress(sb: Super, v: Vol, n: nat, off: nat, src: seq<byte>, tot: nat, w: Vol, was: set<nat>,
                           now: set<nat>) {
    Writing(sb, v, n, off, src, tot, w) && Logs(sb, was, now, w, n, off, tot)
  }

  lemma MappedSized(sb: Super, w: Vol, x: Vol, n: nat, k: nat, a: nat)
    requires Mapped(sb, w, x, n, k, a)
    ensures a < |x.disk| && |x.disk[a]| == BSIZE && HasFile(w, n) && HasFile(x, n)
  {
  }

  lemma ProgressFacts(sb: Super, v: Vol, n: nat, off: nat, src: seq<byte>, tot: nat, w: Vol, was: set<nat>,
                      now: set<nat>)
    requires Progress(sb, v, n, off, src, tot, w, was, now)
    ensures off + |src| <= MAXFILE * BSIZE && n < |w.inodes|
  {
  }

  lemma RoundDone(sb: Super, v: Vol, n: nat, off: nat, src: seq<byte>, tot: nat, w: Vol, x: Vol, a: nat, m: nat, y: Vol,
                  was: set<nat>, now: set<nat>, mid: set<nat>, now': set<nat>)
    requires Progress(sb, v, n, off, src, tot, w, was, now) && 0 < m <= |src| - tot && (off + tot) % BSIZE + m <= BSIZE
    requires Mapped(sb, w, x, n, (off + tot) / BSIZE, a) && a < |x.disk| && |x.disk[a]| == BSIZE
    requires y == x.(disk := x.disk[a := Splice(x.disk[a], (off + tot) % BSIZE, src[tot..tot + m])])
    requires HasFile(w, n) && HasFile(x, n) && LogsOnly(now, mid, MapLogs(sb, w, x, n, (off + tot) / BSIZE, a))
    requires now' == mid + {a}
    ensures Good(sb, y) && Progress(sb, v, n, off, src, tot + m, y, was, now')
  {
    assert Writing(sb, v, n, off, src, tot + m, y) by { WritingNext(sb, v, n, off, src, tot, w, x, a, m, y); }
    assert Logs(sb, was, now', y, n, off, tot + m) by {
      LogsNext(sb, was, now, now', w, x, y, n, off, tot, a, src[tot..tot + m], m, Max(v.inodes[n].size, off + tot));
    }
  }

  lemma WriteStart(sb: Super, v: Vol, n: nat, off: nat, src: seq<byte>, was: set<nat>)
    requires Good(sb, v) && Files(v) && n < |v.inodes|
    requires off <= v.inodes[n].size && off + |src| <= MAXFILE * BSIZE
    ensures Progress(sb, v, n, off, src, 0, v, was, was)
  {
    WritingStart(sb, v, n, off, src);
    LogsStart(sb, was, v, n, off);
  }

  lemma WriteFinish(sb: Super, v: Vol, n: nat, off: nat, src: seq<byte>, w: Vol, f: Vol,
                    was: set<nat>, now: set<nat>, now': set<nat>, dinodes: seq<Inode>)
    requires Progress(sb, v, n, off, src, |src|, w, was, now) && n < |w.inodes|
    requires if |src| > 0 && off + |src| > w.inodes[n].size
             then && f == w.(inodes := SetSize(w.inodes, n, off + |src|)) && now' == now + {sb.inodestart + n / IPB}
                  && n < |v.inodes| && dinodes == v.inodes[n := f.inodes[n]]
             else f == w && now' == now && dinodes == v.inodes
    ensures Good(sb, f) && Files(f) && WroteFile(v, f, n, off, src) && dinodes == f.inodes
    ensures Logs(sb, was + {sb.inodestart + n / IPB}, now', f, n, off, |src|)
  {
    hide Good, Files, HoleFree, Writing, Logs;
    SizeSame(sb, v, n, off, src, w);
    WritingEnd(sb, v, n, off, src, w, f);
    FinishLogs(sb, n, off, |src|, w, f, was, now, now');
  }

  lemma SizeSame(sb: Super, v: Vol, n: nat, off: nat, src: seq<byte>, w: Vol)
    requires Writing(sb, v, n, off, src, |src|, w)
    ensures Good(sb, w) && n < |w.inodes| && n < |v.inodes| && w.inodes[n].size == v.inodes[n].size
    ensures off <= v.inodes[n].size
  {
  }

  lemma FileWritingSize(sb: Super, v: Vol, w: Vol, n: nat, off: nat, src: seq<byte>, i: nat, txns: seq<set<nat>>)
    requires FileWriting(sb, v, w, n, off, src, i, txns)
    ensures |w.inodes| == |v.inodes| && n < |w.inodes| && i <= |src| && (0 < i ==> off + i <= MAXFILE * BSIZE)
    ensures off + i <= w.inodes[n].size <==> off <= v.inodes[n].size
  {
    FilesFit(v, n);
  }

  /** Every data block has an owner. */
  ghost predicate Full(sb: Super, owner: map<nat, Slot>) {
    forall b: nat :: sb.datastart <= b < sb.size ==> b in owner
  }

  /** What the invariant says of the free map. */
  lemma MapFacts(sb: Super, v: Vol)
    requires Good(sb, v)
    ensures forall b: nat :: b < sb.size ==> MapBlock(sb, b) < sb.datastart
    ensures forall b: nat :: b < sb.datastart ==> Used(sb, v.disk, b)
    ensures (forall b: nat :: b < sb.size ==> Used(sb, v.disk, b)) ==> Full(sb, v.owner)
    ensures WellSized(sb, v.disk) && |v.disk| == sb.size && sb.datastart <= sb.size
    ensures forall n: nat :: n < |v.inodes| ==> GoodInode(v.inodes[n])
  {
  }

  /** A fresh indirect block, then a fresh block in one of its entries. */
  lemma MapTrans(sb: Super, v: Vol, w: Vol, x: Vol, n: nat, k: nat, a: nat)
    requires Good(sb, v) && n < |v.inodes| && NDIRECT <= k < MAXFILE && At(v, n, k) == 0
    requires v.inodes[n].addrs[NDIRECT] == 0
    requires SameButBlock(v, w, n, k) && At(w, n, k) == 0 && w.inodes[n].addrs[NDIRECT] != 0
    requires Mapped(sb, w, x, n, k, a)
    ensures Mapped(sb, v, x, n, k, a)
  {
    SameButBlockTrans(v, w, x, n, k);
  }

  /** An indirect block in use is a data block. */
  lemma IndirectOwned(sb: Super, v: Vol, n: nat)
    requires Good(sb, v) && n < |v.inodes| && v.inodes[n].addrs[NDIRECT] != 0
    ensures GoodInode(v.inodes[n]) && sb.datastart <= v.inodes[n].addrs[NDIRECT] < sb.size == |v.disk|
    ensures |v.disk[v.inodes[n].addrs[NDIRECT]]| == BSIZE
    ensures forall k: nat :: NDIRECT <= k < MAXFILE ==>
              At(v, n, k) == Word(v.disk[v.inodes[n].addrs[NDIRECT]], k - NDIRECT)
  {
    var s := Indirect(n);
    assert GoodSlot(v.inodes, s) && AddrOf(v.disk, v.inodes, s) == v.inodes[n].addrs[NDIRECT];
  }
}
