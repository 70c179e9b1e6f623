/** The file system's blocks as fs.c lays them out: a free map with one bit per block, inodes
    with twelve direct block numbers and one indirect block, and an owner for every block in
    use.  The blocks are the ones a reader sees through the buffer cache and the log. */
module FsModel {
  import opened Bytes

  const NDIRECT: nat := 12
  const MAXFILE: nat := NDIRECT + NINDIRECT
  const BPB: nat := BSIZE * 8
  const IPB: nat := 8

  /** The superblock; `datastart` is the number of metadata blocks (`size - nblocks`). */
  datatype Super = Super(size: nat, ninodes: nat, inodestart: nat, bmapstart: nat, datastart: nat)

  /** An inode's type, size and `addrs[NDIRECT + 1]`. */
  datatype Inode = Inode(kind: int, size: nat, addrs: seq<nat>)

  /** A place that can hold a block number: a direct slot, the indirect slot, or an entry of
      the indirect block. */
  datatype Slot = Direct(inum: nat, i: nat) | Indirect(inum: nat) | Entry(inum: nat, j: nat)

  ghost predicate GoodSuper(sb: Super) {
    && 0 < sb.size < WORD && 1 <= sb.datastart <= sb.size
    && sb.bmapstart + (sb.size - 1) / BPB < sb.datastart
  }

  ghost predicate WellSized(sb: Super, disk: seq<Block>) {
    GoodSuper(sb) && |disk| == sb.size && forall b :: 0 <= b < sb.size ==> |disk[b]| == BSIZE
  }

  // ---------------------------------------------------------------- the free map

  /** `BBLOCK(b, sb)`. */
  function MapBlock(sb: Super, b: nat): (m: nat) {
    sb.bmapstart + b / BPB
  }

  lemma MapBlockIsMeta(sb: Super, b: nat)
    requires GoodSuper(sb) && b < sb.size
    ensures MapBlock(sb, b) < sb.datastart
  {
    assert b / BPB <= (sb.size - 1) / BPB;
  }

  /** The bit of block `b` is set. */
  predicate Used(sb: Super, disk: seq<Block>, b: nat)
    requires MapBlock(sb, b) < |disk| && |disk[MapBlock(sb, b)]| == BSIZE
  {
    Bit(disk[MapBlock(sb, b)][b % BPB / 8], b % 8)
  }

  /** Block `b` is bit `b` of the map, counted from the lowest bit of its first byte. */
  lemma UsedIs(sb: Super, disk: seq<Block>, b: nat)
    requires WellSized(sb, disk) && b < sb.size
    ensures sb.bmapstart + b / 4096 < |disk| && Pow2(b % 8) > 0
    ensures MapBlock(sb, b) < |disk|
    ensures Used(sb, disk, b) <==> disk[sb.bmapstart + b / 4096][b % 4096 / 8] / Pow2(b % 8) % 2 == 1
  {
    MapBlockIsMeta(sb, b);
    BitIs(disk[MapBlock(sb, b)][b % BPB / 8], b % 8);
  }

  /** The disk with the bit of block `b` set, or cleared. */
  function Mark(sb: Super, disk: seq<Block>, b: nat, used: bool): (r: seq<Block>)
    requires MapBlock(sb, b) < |disk| && |disk[MapBlock(sb, b)]| == BSIZE
    ensures |r| == |disk| && forall a :: 0 <= a < |disk| ==> |r[a]| == |disk[a]|
    ensures forall a :: 0 <= a < |disk| && a != MapBlock(sb, b) ==> r[a] == disk[a]
  {
    var m := disk[MapBlock(sb, b)];
    var x := m[b % BPB / 8];
    ByteFits(x, b % 8);
    disk[MapBlock(sb, b) := m[b % BPB / 8 := if used then SetBit(x, b % 8) else ClearBit(x, b % 8)]]
  }

  lemma UsedAfterMark(sb: Super, disk: seq<Block>, b: nat, used: bool, c: nat)
    requires WellSized(sb, disk) && b < sb.size && c < sb.size
    requires MapBlock(sb, b) < |disk| && MapBlock(sb, c) < |disk|
    ensures Used(sb, Mark(sb, disk, b, used), c) == if c == b then used else Used(sb, disk, c)
  {
    var x := disk[MapBlock(sb, b)][b % BPB / 8];
    BitOfSet(x, b % 8, c % 8);
    BitOfClear(x, b % 8, c % 8);
    if MapBlock(sb, b) == MapBlock(sb, c) && b % BPB / 8 == c % BPB / 8 && b % 8 == c % 8 {
      SameBit(b, c);
    }
  }

  lemma SameBit(b: nat, c: nat)
    requires b / BPB == c / BPB && b % BPB / 8 == c % BPB / 8 && b % 8 == c % 8
    ensures b == c
  {
    BitIndex(b);
    BitIndex(c);
  }

  lemma BitIndex(b: nat)
    ensures b == BPB * (b / BPB) + 8 * (b % BPB / 8) + b % 8
  {
    var x := b % BPB;
    assert b == 8 * (512 * (b / BPB)) + x;
  }

  /** Exactly the metadata blocks and the blocks of `inUse` have their bit set. */
  ghost predicate MapIs(sb: Super, disk: seq<Block>, inUse: set<nat>)
    requires WellSized(sb, disk)
  {
    forall b: nat :: b < sb.size ==>
      MapBlock(sb, b) < sb.datastart && (Used(sb, disk, b) <==> b < sb.datastart || b in inUse)
  }

  // ---------------------------------------------------------------- slots and owners

  predicate GoodInode(ip: Inode) {
    |ip.addrs| == NDIRECT + 1
  }

  ghost predicate GoodSlot(inodes: seq<Inode>, s: Slot) {
    match s
    case Direct(n, i) => n < |inodes| && i < NDIRECT
    case Indirect(n) => n < |inodes|
    case Entry(n, j) => n < |inodes| && j < NINDIRECT
  }

  /** The block number in a slot, 0 if there is none. */
  ghost function AddrOf(disk: seq<Block>, inodes: seq<Inode>, s: Slot): (a: nat)
    requires GoodSlot(inodes, s) && GoodInode(inodes[s.inum])
  {
    var ip := inodes[s.inum];
    match s
    case Direct(_, i) => ip.addrs[i]
    case Indirect(_) => ip.addrs[NDIRECT]
    case Entry(_, j) =>
      var a := ip.addrs[NDIRECT];
      if 0 < a < |disk| && |disk[a]| == BSIZE then Word(disk[a], j) else 0
  }

  /** Every block number in a slot is a data block, and no two slots hold the same one:
      `owner` takes a block in use back to its slot. */
  ghost predicate Owned(sb: Super, disk: seq<Block>, inodes: seq<Inode>, owner: map<nat, Slot>) {
    && (forall n :: 0 <= n < |inodes| ==> GoodInode(inodes[n]))
    && (forall a :: a in owner ==>
          && sb.datastart <= a < sb.size && GoodSlot(inodes, owner[a])
          && AddrOf(disk, inodes, owner[a]) == a)
    && (forall s: Slot :: GoodSlot(inodes, s) && AddrOf(disk, inodes, s) != 0 ==>
          AddrOf(disk, inodes, s) in owner && owner[AddrOf(disk, inodes, s)] == s)
  }

  /** The invariant between operations. */
  ghost predicate FsInv(sb: Super, disk: seq<Block>, inodes: seq<Inode>, owner: map<nat, Slot>) {
    WellSized(sb, disk) && Owned(sb, disk, inodes, owner) && MapIs(sb, disk, owner.Keys)
  }

  /** The slot of the k-th block of a file. */
  function SlotOf(n: nat, k: nat): (s: Slot) {
    if k < NDIRECT then Direct(n, k) else Entry(n, k - NDIRECT)
  }

  ghost function BlockAt(disk: seq<Block>, inodes: seq<Inode>, n: nat, k: nat): (a: nat)
    requires n < |inodes| && GoodInode(inodes[n]) && k < MAXFILE
  {
    AddrOf(disk, inodes, SlotOf(n, k))
  }

  // ---------------------------------------------------------------- single changes

  /** Marking a free block and zeroing it disturbs no slot and no block in use. */
  lemma AllocKeepsOwned(sb: Super, disk: seq<Block>, inodes: seq<Inode>, owner: map<nat, Slot>, b: nat,
                        disk': seq<Block>)
    requires FsInv(sb, disk, inodes, owner) && b < sb.size && !Used(sb, disk, b)
    requires disk' == Mark(sb, disk, b, true)[b := ZeroBlock()]
    ensures sb.datastart <= b && b !in owner && WellSized(sb, disk')
    ensures forall a :: sb.datastart <= a < sb.size && a != b ==> disk'[a] == disk[a]
    ensures Owned(sb, disk', inodes, owner) && MapIs(sb, disk', owner.Keys + {b})
    ensures forall s: Slot :: GoodSlot(inodes, s) ==> AddrOf(disk', inodes, s) == AddrOf(disk, inodes, s)
  {
    MapBlockIsMeta(sb, b);
    forall s: Slot | GoodSlot(inodes, s)
      ensures AddrOf(disk', inodes, s) == AddrOf(disk, inodes, s)
    {
      SameAddr(sb, disk, inodes, owner, b, disk', s);
    }
    forall c: nat | c < sb.size
      ensures MapBlock(sb, c) < sb.datastart
      ensures Used(sb, disk', c) <==> c < sb.datastart || c in owner.Keys + {b}
    {
      MapBlockIsMeta(sb, c);
      UsedAfterMark(sb, disk, b, true, c);
    }
  }

  lemma SameAddr(sb: Super, disk: seq<Block>, inodes: seq<Inode>, owner: map<nat, Slot>, b: nat, disk': seq<Block>,
                 s: Slot)
    requires WellSized(sb, disk) && WellSized(sb, disk') && Owned(sb, disk, inodes, owner) && b !in owner
    requires forall a :: sb.datastart <= a < sb.size && a != b ==> disk'[a] == disk[a]
    requires GoodSlot(inodes, s)
    ensures AddrOf(disk', inodes, s) == AddrOf(disk, inodes, s)
  {
    var i := Indirect(s.inum);
    assert GoodSlot(inodes, i) && AddrOf(disk, inodes, i) == inodes[s.inum].addrs[NDIRECT];
  }

  /** The inode table with one block number of one inode replaced. */
  function SetAddr(inodes: seq<Inode>, n: nat, i: nat, a: nat): (r: seq<Inode>)
    requires n < |inodes| && GoodInode(inodes[n]) && i <= NDIRECT
    ensures |r| == |inodes| && GoodInode(r[n])
  {
    inodes[n := inodes[n].(addrs := inodes[n].addrs[i := a])]
  }

  /** A marked block with no owner yet goes into an empty direct slot. */
  lemma FillDirect(sb: Super, disk: seq<Block>, inodes: seq<Inode>, owner: map<nat, Slot>, n: nat, i: nat, b: nat)
    requires WellSized(sb, disk) && Owned(sb, disk, inodes, owner) && MapIs(sb, disk, owner.Keys + {b})
    requires sb.datastart <= b < sb.size && b !in owner
    requires n < |inodes| && i < NDIRECT && inodes[n].addrs[i] == 0
    ensures FsInv(sb, disk, SetAddr(inodes, n, i, b), owner[b := Direct(n, i)])
    ensures forall s: Slot :: GoodSlot(inodes, s) && s != Direct(n, i) ==>
              AddrOf(disk, SetAddr(inodes, n, i, b), s) == AddrOf(disk, inodes, s)
  {
    var r := SetAddr(inodes, n, i, b);
    var d := Direct(n, i);
    forall s: Slot | GoodSlot(inodes, s) && s != d
      ensures AddrOf(disk, r, s) == AddrOf(disk, inodes, s)
    {
    }
    assert AddrOf(disk, r, d) == b && AddrOf(disk, inodes, d) == 0;
    OwnedExtend(sb, disk, inodes, owner, disk, r, d, b);
  }

  /** A slot that was empty now holds `b`; all other slots hold what they held. */
  lemma OwnedExtend(sb: Super, disk: seq<Block>, inodes: seq<Inode>, owner: map<nat, Slot>,
                    disk': seq<Block>, inodes': seq<Inode>, d: Slot, b: nat)
    requires Owned(sb, disk, inodes, owner) && 1 <= sb.datastart <= b < sb.size && b !in owner
    requires |inodes'| == |inodes| && (forall n :: 0 <= n < |inodes'| ==> GoodInode(inodes'[n]))
    requires GoodSlot(inodes, d) && AddrOf(disk, inodes, d) == 0 && AddrOf(disk', inodes', d) == b
    requires forall s: Slot :: GoodSlot(inodes, s) && s != d ==> AddrOf(disk', inodes', s) == AddrOf(disk, inodes, s)
    ensures Owned(sb, disk', inodes', owner[b := d])
  {
    forall s: Slot | GoodSlot(inodes', s) && AddrOf(disk', inodes', s) != 0
      ensures AddrOf(disk', inodes', s) in owner[b := d] && owner[b := d][AddrOf(disk', inodes', s)] == s
    {
      assert GoodSlot(inodes, s);
      assert s != d ==> AddrOf(disk', inodes', s) == AddrOf(disk, inodes, s);
    }
    forall a | a in owner
      ensures AddrOf(disk', inodes', owner[a]) == a
    {
      assert GoodSlot(inodes, owner[a]) && AddrOf(disk, inodes, owner[a]) == a;
      assert owner[a] != d;
    }
  }

  /** A zeroed marked block with no owner yet becomes the indirect block. */
  lemma FillIndirect(sb: Super, disk: seq<Block>, inodes: seq<Inode>, owner: map<nat, Slot>, n: nat, b: nat)
    requires WellSized(sb, disk) && Owned(sb, disk, inodes, owner) && MapIs(sb, disk, owner.Keys + {b})
    requires sb.datastart <= b < sb.size && b !in owner && disk[b] == ZeroBlock()
    requires n < |inodes| && inodes[n].addrs[NDIRECT] == 0
    ensures FsInv(sb, disk, SetAddr(inodes, n, NDIRECT, b), owner[b := Indirect(n)])
    ensures forall s: Slot :: GoodSlot(inodes, s) && s != Indirect(n) ==>
              AddrOf(disk, SetAddr(inodes, n, NDIRECT, b), s) == AddrOf(disk, inodes, s)
  {
    var r := SetAddr(inodes, n, NDIRECT, b);
    var d := Indirect(n);
    forall s: Slot | GoodSlot(inodes, s) && s != d
      ensures AddrOf(disk, r, s) == AddrOf(disk, inodes, s)
    {
      if s.Entry? && s.inum == n { WordOfZero(s.j); }
    }
    assert AddrOf(disk, r, d) == b && AddrOf(disk, inodes, d) == 0;
    OwnedExtend(sb, disk, inodes, owner, disk, r, d, b);
  }

  /** Replacing the contents of a data block of a file moves no slot. */
  lemma WriteKeeps(sb: Super, disk: seq<Block>, inodes: seq<Inode>, owner: map<nat, Slot>, a: nat, data: Block)
    requires FsInv(sb, disk, inodes, owner) && a in owner && !owner[a].Indirect? && |data| == BSIZE
    ensures FsInv(sb, disk[a := data], inodes, owner)
    ensures forall s: Slot :: GoodSlot(inodes, s) ==> AddrOf(disk[a := data], inodes, s) == AddrOf(disk, inodes, s)
  {
    var disk' := disk[a := data];
    forall s: Slot | GoodSlot(inodes, s)
      ensures AddrOf(disk', inodes, s) == AddrOf(disk, inodes, s)
    {
      var i := Indirect(s.inum);
      assert GoodSlot(inodes, i) && AddrOf(disk, inodes, i) == inodes[s.inum].addrs[NDIRECT];
    }
    SameMap(sb, disk, disk', owner.Keys);
  }

  /** Changes to data blocks do not change the free map. */
  lemma SameMap(sb: Super, disk: seq<Block>, disk': seq<Block>, inUse: set<nat>)
    requires WellSized(sb, disk) && WellSized(sb, disk') && MapIs(sb, disk, inUse)
    requires forall b :: 0 <= b < sb.datastart ==> disk'[b] == disk[b]
    ensures MapIs(sb, disk', inUse)
  {
    forall b: nat | b < sb.size
      ensures MapBlock(sb, b) < sb.datastart && (Used(sb, disk', b) <==> b < sb.datastart || b in inUse)
    {
      MapBlockIsMeta(sb, b);
      assert Used(sb, disk, b) <==> b < sb.datastart || b in inUse;
    }
  }

  /** A marked block with no owner yet goes into an empty entry of the indirect block. */
  lemma FillEntry(sb: Super, disk: seq<Block>, inodes: seq<Inode>, owner: map<nat, Slot>, n: nat, j: nat, b: nat,
                  disk': seq<Block>)
    requires WellSized(sb, disk) && Owned(sb, disk, inodes, owner) && MapIs(sb, disk, owner.Keys + {b})
    requires sb.datastart <= b < sb.size && b !in owner
    requires n < |inodes| && j < NINDIRECT && 0 < inodes[n].addrs[NDIRECT] < sb.size
    requires Word(disk[inodes[n].addrs[NDIRECT]], j) == 0
    requires disk' == disk[inodes[n].addrs[NDIRECT] := PutWord(disk[inodes[n].addrs[NDIRECT]], j, b)]
    ensures inodes[n].addrs[NDIRECT] in owner && owner[inodes[n].addrs[NDIRECT]] == Indirect(n)
    ensures FsInv(sb, disk', inodes, owner[b := Entry(n, j)])
    ensures forall s: Slot :: GoodSlot(inodes, s) && s != Entry(n, j) ==>
              AddrOf(disk', inodes, s) == AddrOf(disk, inodes, s)
  {
    hide MapIs, Word;
    assert owner[b := Entry(n, j)].Keys == owner.Keys + {b};
    var ind := inodes[n].addrs[NDIRECT];
    var d := Entry(n, j);
    assert GoodSlot(inodes, Indirect(n)) && AddrOf(disk, inodes, Indirect(n)) == ind;
    forall s: Slot | GoodSlot(inodes, s) && s != d
      ensures AddrOf(disk', inodes, s) == AddrOf(disk, inodes, s)
    {
      var i := Indirect(s.inum);
      assert GoodSlot(inodes, i) && AddrOf(disk, inodes, i) == inodes[s.inum].addrs[NDIRECT];
      if s.Entry? && s.inum == n { WordOfPut(disk[ind], j, b, s.j); }
    }
    WordOfPut(disk[ind], j, b, j);
    assert AddrOf(disk', inodes, d) == b && AddrOf(disk, inodes, d) == 0;
    OwnedExtend(sb, disk, inodes, owner, disk', inodes, d, b);
    SameMap(sb, disk, disk', owner.Keys + {b});
  }

  // ---------------------------------------------------------------- giving blocks back

  /** Changing a bit of the free map moves no slot. */
  lemma MarkKeepsOwned(sb: Super, disk: seq<Block>, inodes: seq<Inode>, owner: map<nat, Slot>, b: nat, used: bool)
    requires WellSized(sb, disk) && Owned(sb, disk, inodes, owner) && b < sb.size && MapBlock(sb, b) < sb.datastart
    ensures WellSized(sb, Mark(sb, disk, b, used)) && Owned(sb, Mark(sb, disk, b, used), inodes, owner)
    ensures forall s: Slot :: GoodSlot(inodes, s) ==> AddrOf(Mark(sb, disk, b, used), inodes, s) == AddrOf(disk, inodes, s)
  {
    var disk' := Mark(sb, disk, b, used);
    forall s: Slot | GoodSlot(inodes, s)
      ensures AddrOf(disk', inodes, s) == AddrOf(disk, inodes, s)
    {
      SameAddr(sb, disk, inodes, owner, 0, disk', s);
    }
  }

  lemma ClearedMap(sb: Super, disk: seq<Block>, inUse: set<nat>, b: nat)
    requires WellSized(sb, disk) && MapIs(sb, disk, inUse) && sb.datastart <= b < sb.size
    ensures WellSized(sb, Mark(sb, disk, b, false)) && MapIs(sb, Mark(sb, disk, b, false), inUse - {b})
  {
    forall c: nat | c < sb.size
      ensures MapBlock(sb, c) < sb.datastart
      ensures Used(sb, Mark(sb, disk, b, false), c) <==> c < sb.datastart || c in inUse - {b}
    {
      assert MapBlock(sb, c) < sb.datastart;
      UsedAfterMark(sb, disk, b, false, c);
    }
  }

  /** `bfree` of the block in a direct slot, and clearing the slot. */
  lemma FreeDirect(sb: Super, disk: seq<Block>, inodes: seq<Inode>, owner: map<nat, Slot>, n: nat, i: nat)
    requires FsInv(sb, disk, inodes, owner) && n < |inodes| && i < NDIRECT && inodes[n].addrs[i] != 0
    ensures var a := inodes[n].addrs[i];
            && a in owner && owner[a] == Direct(n, i) && Used(sb, disk, a)
            && FsInv(sb, Mark(sb, disk, a, false), SetAddr(inodes, n, i, 0), owner - {a})
            && (forall s: Slot :: GoodSlot(inodes, s) && s != Direct(n, i) ==>
                  AddrOf(Mark(sb, disk, a, false), SetAddr(inodes, n, i, 0), s) == AddrOf(disk, inodes, s))
  {
    hide Used;
    var a := inodes[n].addrs[i];
    var d := Direct(n, i);
    assert GoodSlot(inodes, d) && AddrOf(disk, inodes, d) == a;
    var disk', inodes' := Mark(sb, disk, a, false), SetAddr(inodes, n, i, 0);
    assert MapBlock(sb, a) < sb.datastart;
    MarkKeepsOwned(sb, disk, inodes, owner, a, false);
    ClearedMap(sb, disk, owner.Keys, a);
    assert owner.Keys - {a} == (owner - {a}).Keys;
    forall s: Slot | GoodSlot(inodes, s) && s != d
      ensures AddrOf(disk', inodes', s) == AddrOf(disk, inodes, s)
    {
      assert AddrOf(disk', inodes, s) == AddrOf(disk, inodes, s);
    }
    OwnedShrink(sb, disk, inodes, owner, disk', inodes', {a});
  }

  /** The slots that held the blocks of `gone` are empty now; all other slots are as before. */
  lemma OwnedShrink(sb: Super, disk: seq<Block>, inodes: seq<Inode>, owner: map<nat, Slot>,
                    disk': seq<Block>, inodes': seq<Inode>, gone: set<nat>)
    requires Owned(sb, disk, inodes, owner)
    requires |inodes'| == |inodes| && (forall n :: 0 <= n < |inodes'| ==> GoodInode(inodes'[n]))
    requires forall s: Slot :: GoodSlot(inodes, s) ==>
               AddrOf(disk', inodes', s) == if AddrOf(disk, inodes, s) in gone then 0 else AddrOf(disk, inodes, s)
    ensures Owned(sb, disk', inodes', owner - gone)
  {
    forall s: Slot | GoodSlot(inodes', s) && AddrOf(disk', inodes', s) != 0
      ensures AddrOf(disk', inodes', s) in owner - gone && (owner - gone)[AddrOf(disk', inodes', s)] == s
    {
      assert GoodSlot(inodes, s);
    }
    forall a | a in owner - gone
      ensures GoodSlot(inodes', owner[a]) && AddrOf(disk', inodes', owner[a]) == a
    {
      assert GoodSlot(inodes, owner[a]) && AddrOf(disk, inodes, owner[a]) == a;
    }
  }

  /** The blocks that the first `t` entries of the indirect block of inode `n` hold. */
  ghost function EntryBlocks(owner: map<nat, Slot>, n: nat, t: nat): (r: set<nat>) {
    set a | a in owner && owner[a].Entry? && owner[a].inum == n && owner[a].j < t
  }

  lemma EntryBlocksNext(sb: Super, disk: seq<Block>, inodes: seq<Inode>, owner: map<nat, Slot>, n: nat, t: nat)
    requires Owned(sb, disk, inodes, owner) && 1 <= sb.datastart && n < |inodes| && t < NINDIRECT
    ensures var a := AddrOf(disk, inodes, Entry(n, t));
            && EntryBlocks(owner, n, t + 1) == EntryBlocks(owner, n, t) + (if a == 0 then {} else {a})
            && (a != 0 ==> a in owner && a !in EntryBlocks(owner, n, t))
  {
    var s := Entry(n, t);
    var a := AddrOf(disk, inodes, s);
    assert GoodSlot(inodes, s);
    forall b: nat
      ensures b in EntryBlocks(owner, n, t + 1) <==> b in EntryBlocks(owner, n, t) || (a != 0 && b == a)
    {
      if b in owner && owner[b] == s {
        assert AddrOf(disk, inodes, owner[b]) == b;
      }
    }
  }

  /** With all entries and the indirect block itself freed, clearing the indirect slot makes
      the free map and the slots agree again. */
  lemma DropIndirect(sb: Super, disk: seq<Block>, inodes: seq<Inode>, owner: map<nat, Slot>, n: nat)
    requires WellSized(sb, disk) && Owned(sb, disk, inodes, owner) && n < |inodes|
    requires inodes[n].addrs[NDIRECT] != 0
    requires MapIs(sb, disk, owner.Keys - EntryBlocks(owner, n, NINDIRECT) - {inodes[n].addrs[NDIRECT]})
    ensures var gone := EntryBlocks(owner, n, NINDIRECT) + {inodes[n].addrs[NDIRECT]};
            FsInv(sb, disk, SetAddr(inodes, n, NDIRECT, 0), owner - gone)
    ensures forall s: Slot :: GoodSlot(inodes, s) ==>
              AddrOf(disk, SetAddr(inodes, n, NDIRECT, 0), s) ==
                if s == Indirect(n) || (s.Entry? && s.inum == n) then 0 else AddrOf(disk, inodes, s)
  {
    var ind := inodes[n].addrs[NDIRECT];
    var inodes' := SetAddr(inodes, n, NDIRECT, 0);
    var gone := EntryBlocks(owner, n, NINDIRECT) + {ind};
    assert GoodSlot(inodes, Indirect(n)) && AddrOf(disk, inodes, Indirect(n)) == ind;
    forall s: Slot | GoodSlot(inodes, s)
      ensures AddrOf(disk, inodes', s) == if s == Indirect(n) || (s.Entry? && s.inum == n) then 0 else AddrOf(disk, inodes, s)
      ensures AddrOf(disk, inodes', s) == if AddrOf(disk, inodes, s) in gone then 0 else AddrOf(disk, inodes, s)
    {
    }
    OwnedShrink(sb, disk, inodes, owner, disk, inodes', gone);
    assert owner.Keys - EntryBlocks(owner, n, NINDIRECT) - {ind} == (owner - gone).Keys;
  }
}
