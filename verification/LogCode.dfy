/** log.c over its global `log` structure.

    `pinned` holds the contents of the buffers that `log_write` marked B_DIRTY; any other
    buffer reads as the disk does (BufferCache proves that a reader cannot tell).  `asleep`
    are the processes asleep on the log in `begin_op`.  Each method that takes the lock is one
    critical section, up to a `sleep` or a `release`; `Tests` is what `log_write` reads before
    it takes the lock, and other operations may run between the two (LogRun). */
module LogCode {
  import opened Common
  import opened LogDisk

  /** `log_write` appends a block number unless the list already has it. */
  function Absorb(lh: seq<int>, b: int): (r: seq<int>)
    ensures b in r && forall x :: x in r <==> x in lh || x == b
    ensures Distinct(lh) ==> Distinct(r)
  {
    if b in lh then lh else lh + [b]
  }

  /** What a reader of block `b` sees. */
  function View(pinned: map<int, Block>, d: Disk, b: int): (data: Block)
    requires 0 <= b < |d|
  {
    if b in pinned then pinned[b] else d[b]
  }

  /** What a reader sees of every block in a list. */
  function Views(pinned: map<int, Block>, d: Disk, lh: seq<int>): (vals: seq<Block>)
    requires forall i :: 0 <= i < |lh| ==> 0 <= lh[i] < |d|
    ensures |vals| == |lh|
    ensures forall i {:trigger vals[i]} :: 0 <= i < |vals| ==> vals[i] == View(pinned, d, lh[i])
  {
    seq(|lh|, i requires 0 <= i < |lh| => View(pinned, d, lh[i]))
  }

  /** The pinned buffers after the listed ones were written out. */
  function Unpin(pinned: map<int, Block>, lh: seq<int>): (r: map<int, Block>)
  {
    if lh == [] then pinned else Unpin(pinned, lh[..|lh| - 1]) - {lh[|lh| - 1]}
  }

  lemma {:induction false} UnpinIs(pinned: map<int, Block>, lh: seq<int>)
    ensures Unpin(pinned, lh) == map b | b in pinned && b !in lh :: pinned[b]
  {
    if lh != [] {
      UnpinIs(pinned, lh[..|lh| - 1]);
      assert forall b :: b in lh <==> b in lh[..|lh| - 1] || b == lh[|lh| - 1];
    }
  }

  lemma UnpinSnoc(pinned: map<int, Block>, lh: seq<int>, k: nat)
    requires k < |lh|
    ensures Unpin(pinned, lh[..k + 1]) == Unpin(pinned, lh[..k]) - {lh[k]}
  {
    assert lh[..k + 1][..k] == lh[..k];
  }

  /** The admission test of `begin_op`. */
  predicate Admits(n: int, outstanding: int, committing: bool) {
    !committing && n + (outstanding + 1) * MAXOPBLOCKS <= LOGSIZE
  }

  class Log {
    const g: Geometry
    const block: array<int>
    var n: int
    var outstanding: int
    var committing: bool
    var asleep: set<nat>
    var pinned: map<int, Block>
    var disk: Disk
    ghost var writes: seq<Write>  // every block write so far

    ghost predicate Valid()
      reads this, block
    {
      && block.Length == LOGSIZE && 0 <= n <= LOGSIZE && 0 <= outstanding
      && Fits(g, disk) && Listable(g, |disk|, block[..n])
      && (forall b :: b in pinned ==> Home(g, |disk|, b))
      && forall i :: 0 <= i < n ==> 0 <= block[i] < |disk|
    }

    /** No operation sleeps that could be admitted. */
    ghost predicate NoneForgotten()
      reads this`n, this`outstanding, this`committing, this`asleep
    {
      asleep != {} ==> committing || n + (outstanding + 1) * MAXOPBLOCKS > LOGSIZE
    }

    /** The in-memory header. */
    function Lh(): (lh: seq<int>)
      requires 0 <= n <= block.Length
      reads this, block
    {
      block[..n]
    }

    /** `bread`: the cached contents if pinned, else the disk's. */
    function Bread(b: int): (data: Block)
      requires 0 <= b < |disk|
      reads this
    {
      View(pinned, disk, b)
    }

    /** At boot, before recovery: the header of the log on the disk decides what to redo. */
    constructor (geometry: Geometry, image: Disk)
      requires Fits(geometry, image)
      ensures Valid() && g == geometry && disk == image && n == 0 && pinned == map[] && writes == []
      ensures outstanding == 0 && !committing && asleep == {}
    {
      g, disk, n, outstanding, committing, asleep := geometry, image, 0, 0, false, {};
      pinned, writes := map[], [];
      block := new int[LOGSIZE];
    }

    /** `bwrite` of a buffer with the given contents; it is clean afterwards. */
    method Bwrite(b: int, data: Block)
      requires Valid() && 0 <= b < |disk|
      modifies this`disk, this`pinned, this`writes
      ensures disk == old(disk)[b := data] && pinned == old(pinned) - {b}
      ensures writes == old(writes) + [Write(b, data)]
      ensures Valid()
    {
      disk := disk[b := data];
      pinned := pinned - {b};
      writes := writes + [Write(b, data)];
    }

    /** One pass through the loop of `begin_op`: process `p` is admitted, or goes to sleep. */
    method TryBeginOp(p: nat) returns (admitted: bool)
      requires Valid() && p !in asleep
      modifies this`outstanding, this`asleep
      ensures Valid() && (old(NoneForgotten()) ==> NoneForgotten())
      ensures admitted <==> !committing && n + (old(outstanding) + 1) * MAXOPBLOCKS <= LOGSIZE
      ensures outstanding == old(outstanding) + (if admitted then 1 else 0)
      ensures asleep == if admitted then old(asleep) else old(asleep) + {p}
    {
      if committing {
        asleep := asleep + {p};
        return false;
      } else if n + (outstanding + 1) * MAXOPBLOCKS > LOGSIZE {
        asleep := asleep + {p};
        return false;
      } else {
        outstanding := outstanding + 1;
        return true;
      }
    }

    /** The first critical section of `end_op`; "log.committing" is the panic. */
    method EndOp() returns (panic: bool, doCommit: bool)
      requires Valid() && outstanding >= 1
      modifies this`outstanding, this`committing, this`asleep
      ensures Valid() && (old(NoneForgotten()) ==> NoneForgotten())
      ensures outstanding == old(outstanding) - 1
      ensures panic == old(committing)
      ensures doCommit <==> !panic && outstanding == 0
      ensures committing == (old(committing) || doCommit)
      ensures asleep == if panic || doCommit then old(asleep) else {}
    {
      doCommit, panic := false, false;
      outstanding := outstanding - 1;
      if committing {
        return true, false;
      }
      if outstanding == 0 {
        doCommit := true;
        committing := true;
      } else {
        asleep := {};
      }
    }

    /** The last critical section of `end_op`, when `commit` has returned. */
    method EndCommit()
      requires Valid() && committing
      modifies this`committing, this`asleep
      ensures Valid() && NoneForgotten() && !committing && asleep == {}
    {
      committing := false;
      asleep := {};
    }

    /** The tests of `log_write`, made without the lock. */
    method Tests() returns (panic: bool)
      ensures panic <==> n >= LOGSIZE || n >= g.size - 1 || outstanding < 1
    {
      if n >= LOGSIZE || n >= g.size - 1 {
        return true;
      }
      if outstanding < 1 {
        return true;
      }
      return false;
    }

    /** The critical section of `log_write`, for a buffer whose new contents are `data`.  The
        tests may be out of date by now; that the list still has room is the reservation of
        `begin_op` (ReservationHolds). */
    method Append(b: int, data: Block)
      requires Valid() && Home(g, |disk|, b)
      requires n < LOGSIZE || b in Lh()
      modifies this`n, this`pinned, block
      ensures Valid() && (old(NoneForgotten()) ==> NoneForgotten())
      ensures Lh() == Absorb(old(Lh()), b) && pinned == old(pinned)[b := data]
    {
      ghost var was := Lh();
      var i := 0;
      while i < n && block[i] != b
        invariant 0 <= i <= n && Lh() == was
        invariant b !in was[..i]
      {
        i := i + 1;
      }
      block[i] := b;
      if i == n {
        n := n + 1;
        assert Lh() == was + [b];
      } else {
        assert Lh() == was;
      }
      pinned := pinned[b := data];
      assert Distinct(Absorb(was, b));
    }

    /** `write_log`: copy the modified blocks from the cache to the log. */
    method WriteLog()
      requires Valid() && n < g.size
      requires forall i :: 0 <= i < n ==> block[i] in pinned
      modifies this`disk, this`pinned, this`writes
      ensures Valid() && pinned == old(pinned)
      ensures writes == old(writes) + LogWrites(g, Views(old(pinned), old(disk), old(Lh())))
      ensures InRange(|old(disk)|, LogWrites(g, Views(old(pinned), old(disk), old(Lh()))))
      ensures disk == Apply(old(disk), LogWrites(g, Views(old(pinned), old(disk), old(Lh()))))
    {
      hide Logs, LogWrites, Apply, InRange;
      ghost var d, vals, ws := disk, Views(pinned, disk, Lh()), writes;
      LogStart(g, d, vals, ws);
      var tail := 0;
      while tail < n
        invariant 0 <= tail <= n && Valid() && pinned == old(pinned)
        invariant Logs(g, d, vals, ws, tail, disk, writes)
      {
        LogNext(g, d, vals, ws, tail, disk, writes);
        var from := Bread(block[tail]);
        assert from == vals[tail];
        Bwrite(g.start + tail + 1, from);
        assert pinned == old(pinned);
        tail := tail + 1;
      }
      LogEnd(g, d, vals, ws, disk, writes);
    }

    /** `write_head`: word 0 and one word per listed block; the rest of the block is kept. */
    method WriteHead()
      requires Valid()
      modifies this`disk, this`pinned, this`writes
      ensures Valid() && pinned == old(pinned)
      ensures writes == old(writes) + [Write(g.start, Encode(old(disk)[g.start], Lh()))]
      ensures disk == old(disk)[g.start := Encode(old(disk)[g.start], Lh())]
    {
      var was := Bread(g.start);
      var hb: seq<int> := was[0 := n];
      HeadUpToStarts(was, Lh());
      var i := 0;
      while i < n
        invariant unchanged(this, block)
        invariant 0 <= i <= n && hb == HeadUpTo(was, Lh(), i)
      {
        HeadUpToNext(was, Lh(), i);
        hb := hb[1 + i := block[i]];
        i := i + 1;
      }
      HeadUpToEnds(was, Lh());
      Bwrite(g.start, hb);
      assert pinned == old(pinned);
    }

    /** `read_head`: take the in-memory header from the disk. */
    method ReadHead()
      requires Valid() && Readable(g, disk)
      modifies this`n, block
      ensures Valid()
      ensures Lh() == Decode(disk[g.start])
    {
      var hb := Bread(g.start);
      n := hb[0];
      var i := 0;
      while i < n
        invariant 0 <= i <= n && n == hb[0] && block[..i] == hb[1..1 + i]
      {
        block[i] := hb[1 + i];
        i := i + 1;
      }
    }

    /** `install_trans`: copy the logged blocks to their homes. */
    method InstallTrans()
      requires Valid() && n < g.size
      modifies this`disk, this`pinned, this`writes
      ensures Valid() && pinned == Unpin(old(pinned), Lh())
      ensures writes == old(writes) + InstallWrites(g, old(disk), Lh())
      ensures InRange(|old(disk)|, InstallWrites(g, old(disk), Lh()))
      ensures disk == Apply(old(disk), InstallWrites(g, old(disk), Lh()))
    {
      hide Installs, InstallWrites, Apply, InRange;
      ghost var d, lh, pins, ws := disk, Lh(), pinned, writes;
      InstallStart(g, d, lh, pins, ws);
      var tail := 0;
      while tail < n
        invariant 0 <= tail <= n && Valid()
        invariant Installs(g, d, lh, pins, ws, tail, disk, pinned, writes)
      {
        InstallNext(g, d, lh, pins, ws, tail, disk, pinned, writes);
        var lbuf := Bread(g.start + tail + 1);
        Bwrite(block[tail], lbuf);
        tail := tail + 1;
      }
      InstallEnd(g, d, lh, pins, ws, disk, pinned, writes);
    }

    /** `recover_from_log`: issues the writes of `RecoverWrites` and no others. */
    method RecoverFromLog()
      requires Valid() && Readable(g, disk) && pinned == map[]
      modifies this`n, this`disk, this`pinned, this`writes, block
      ensures Valid() && n == 0 && pinned == map[]
      ensures writes == old(writes) + RecoverWrites(g, old(disk))
      ensures disk == Recovered(g, old(disk))
    {
      ReadHead();
      ghost var d, lh := disk, Lh();
      InstallTrans();
      HomeWritesKeepLog(g, d, InstallWrites(g, d, lh), g.start);
      n := 0;
      assert Lh() == [];
      ghost var ws := InstallWrites(g, d, lh);
      WriteHead();
      assert RecoverWrites(g, d)[..|ws|] == ws;
      Assoc(old(writes), ws, [Write(g.start, Encode(d[g.start], []))]);
      UnpinIs(map[], lh);
    }

    /** `commit`: issues the writes of `CommitWrites` and no others. */
    method Commit()
      requires Valid() && n < g.size
      requires forall i :: 0 <= i < n ==> block[i] in pinned
      modifies this`n, this`disk, this`pinned, this`writes, block
      ensures Valid() && n == 0
      ensures pinned == Unpin(old(pinned), old(Lh()))
      ensures old(n) == 0 ==> disk == old(disk) && writes == old(writes)
      ensures old(n) > 0 ==>
                && writes == old(writes) + CommitWrites(g, old(disk), old(Lh()), Views(old(pinned), old(disk), old(Lh())))
                && InRange(|old(disk)|, CommitWrites(g, old(disk), old(Lh()), Views(old(pinned), old(disk), old(Lh()))))
                && disk == Apply(old(disk), CommitWrites(g, old(disk), old(Lh()), Views(old(pinned), old(disk), old(Lh()))))
    {
      hide Apply, InRange, Encode;
      if n > 0 {
        ghost var d0, lh, vals := disk, Lh(), Views(pinned, disk, Lh());
        WriteLog();
        ghost var d1 := disk;
        LoggedBlocks(g, d0, vals);
        WriteHead();
        ghost var d2 := disk;
        assert Lh() == lh;
        InstallsHomes(g, d1, d2, lh, vals);
        InstallTrans();
        ghost var d3 := disk;
        n := 0;
        assert Lh() == [];
        WriteHead();
        CommitSequence(g, d0, lh, vals, d1, d2, d3, disk);
        Regroup(old(writes), LogWrites(g, vals), [Write(g.start, d2[g.start])], HomeWrites(lh, vals),
                [Write(g.start, disk[g.start])]);
      }
    }
  }

  /** The header block with the count and the first `i` words of the list written. */
  function HeadUpTo(was: Block, lh: seq<int>, i: nat): (b: Block)
    requires i <= |lh| <= LOGSIZE
  {
    [|lh|] + lh[..i] + was[1 + i..]
  }

  lemma HeadUpToStarts(was: Block, lh: seq<int>)
    requires |lh| <= LOGSIZE
    ensures HeadUpTo(was, lh, 0) == was[0 := |lh|]
  {
  }

  lemma HeadUpToNext(was: Block, lh: seq<int>, i: nat)
    requires i < |lh| <= LOGSIZE
    ensures HeadUpTo(was, lh, i + 1) == HeadUpTo(was, lh, i)[1 + i := lh[i]]
  {
  }

  lemma HeadUpToEnds(was: Block, lh: seq<int>)
    requires |lh| <= LOGSIZE
    ensures HeadUpTo(was, lh, |lh|) == Encode(was, lh)
  {
    assert lh[..|lh|] == lh;
  }

  /** After `write_log` the header is untouched and the log blocks hold the new contents. */
  lemma LoggedBlocks(g: Geometry, d: Disk, vals: seq<Block>)
    requires Fits(g, d) && |vals| < g.size
    ensures InRange(|d|, LogWrites(g, vals))
    ensures Apply(d, LogWrites(g, vals))[g.start] == d[g.start]
    ensures Logged(g, Apply(d, LogWrites(g, vals)), vals)
  {
    ApplyUntouched(d, LogWrites(g, vals), g.start);
    forall i | 0 <= i < |vals|
      ensures Apply(d, LogWrites(g, vals))[g.start + 1 + i] == vals[i]
    {
      LoggedBlock(g, d, vals, i);
    }
  }

  lemma LoggedBlock(g: Geometry, d: Disk, vals: seq<Block>, i: nat)
    requires Fits(g, d) && |vals| < g.size && i < |vals|
    ensures InRange(|d|, LogWrites(g, vals))
    ensures Apply(d, LogWrites(g, vals))[g.start + 1 + i] == vals[i]
  {
    hide Apply;
    var ws := LogWrites(g, vals);
    assert ws[i].addr == g.start + 1 + i;
    ApplyLast(d, ws, i);
  }

  ghost predicate Logged(g: Geometry, d: Disk, vals: seq<Block>)
    requires g.start + |vals| < |d|
  {
    forall i :: 0 <= i < |vals| ==> d[g.start + 1 + i] == vals[i]
  }

  /** With the new contents in the log and the header written, `install_trans` puts them into
      their homes and keeps the header. */
  lemma InstallsHomes(g: Geometry, d1: Disk, d2: Disk, lh: seq<int>, vals: seq<Block>)
    requires Fits(g, d1) && Loggable(g, |d1|, lh) && |vals| == |lh|
    requires Logged(g, d1, vals) && |d2| == |d1| && d2 == d1[g.start := d2[g.start]]
    ensures InstallWrites(g, d2, lh) == HomeWrites(lh, vals)
    ensures InRange(|d2|, HomeWrites(lh, vals))
    ensures Apply(d2, HomeWrites(lh, vals))[g.start] == d2[g.start]
  {
    var ws := HomeWrites(lh, vals);
    forall i | 0 <= i < |ws|
      ensures ws[i] == InstallWrites(g, d2, lh)[i] && Home(g, |d2|, ws[i].addr)
    {
    }
    HomeWritesKeepLog(g, d2, ws, g.start);
  }

  /** `write_log` of the contents `vals` started from disk `d` and writes `w`, and after `t`
      rounds has come to `d'` and `w'`. */
  ghost predicate Logs(g: Geometry, d: Disk, vals: seq<Block>, w: seq<Write>, t: nat, d': Disk, w': seq<Write>) {
    && Fits(g, d) && t <= |vals| < g.size
    && var ws := LogWrites(g, vals);
       InRange(|d|, ws) && d' == Apply(d, ws[..t]) && w' == w + ws[..t]
  }

  lemma LogStart(g: Geometry, d: Disk, vals: seq<Block>, w: seq<Write>)
    requires Fits(g, d) && |vals| < g.size
    ensures Logs(g, d, vals, w, 0, d, w)
  {
    assert LogWrites(g, vals)[..0] == [];
  }

  lemma LogNext(g: Geometry, d: Disk, vals: seq<Block>, w: seq<Write>, t: nat, d': Disk, w': seq<Write>)
    requires Logs(g, d, vals, w, t, d', w') && t < |vals|
    ensures |d'| == |d| && g.start + t + 1 < |d|
    ensures Logs(g, d, vals, w, t + 1, d'[g.start + t + 1 := vals[t]], w' + [Write(g.start + t + 1, vals[t])])
  {
    var ws := LogWrites(g, vals);
    assert ws[t] == Write(g.start + t + 1, vals[t]);
    TakeSnoc(ws, t);
    assert ws[..t + 1][..t] == ws[..t];
    Assoc(w, ws[..t], [ws[t]]);
  }

  lemma LogEnd(g: Geometry, d: Disk, vals: seq<Block>, w: seq<Write>, d': Disk, w': seq<Write>)
    requires Logs(g, d, vals, w, |vals|, d', w')
    ensures InRange(|d|, LogWrites(g, vals)) && d' == Apply(d, LogWrites(g, vals)) && w' == w + LogWrites(g, vals)
  {
    assert LogWrites(g, vals)[..|vals|] == LogWrites(g, vals);
  }

  /** `install_trans` started from disk `d`, pins `p` and writes `w`, and after `t` rounds has
      come to `d'`, `p'` and `w'`. */
  ghost predicate Installs(g: Geometry, d: Disk, lh: seq<int>, p: map<int, Block>, w: seq<Write>, t: nat,
                           d': Disk, p': map<int, Block>, w': seq<Write>)
  {
    && Fits(g, d) && Loggable(g, |d|, lh) && t <= |lh|
    && var ws := InstallWrites(g, d, lh);
       InRange(|d|, ws) && d' == Apply(d, ws[..t]) && p' == Unpin(p, lh[..t]) && w' == w + ws[..t]
  }

  lemma InstallStart(g: Geometry, d: Disk, lh: seq<int>, p: map<int, Block>, w: seq<Write>)
    requires Fits(g, d) && Loggable(g, |d|, lh)
    ensures Installs(g, d, lh, p, w, 0, d, p, w)
  {
    var ws := InstallWrites(g, d, lh);
    assert forall i :: 0 <= i < |ws| ==> Home(g, |d|, ws[i].addr);
    assert ws[..0] == [] && lh[..0] == [];
  }

  lemma InstallNext(g: Geometry, d: Disk, lh: seq<int>, p: map<int, Block>, w: seq<Write>, t: nat,
                    d': Disk, p': map<int, Block>, w': seq<Write>)
    requires Installs(g, d, lh, p, w, t, d', p', w') && t < |lh|
    ensures |d'| == |d| && Home(g, |d|, lh[t])
    ensures Installs(g, d, lh, p, w, t + 1, d'[lh[t] := d'[g.start + t + 1]], p' - {lh[t]},
                     w' + [Write(lh[t], d'[g.start + t + 1])])
  {
    var ws := InstallWrites(g, d, lh);
    assert forall i :: 0 <= i < |ws| ==> Home(g, |d|, ws[i].addr);
    HomeWritesKeepLog(g, d, ws[..t], g.start + t + 1);
    assert ws[t] == Write(lh[t], d'[g.start + t + 1]);
    TakeSnoc(ws, t);
    assert ws[..t + 1][..t] == ws[..t];
    Assoc(w, ws[..t], [ws[t]]);
    UnpinSnoc(p, lh, t);
  }

  lemma InstallEnd(g: Geometry, d: Disk, lh: seq<int>, p: map<int, Block>, w: seq<Write>,
                   d': Disk, p': map<int, Block>, w': seq<Write>)
    requires Installs(g, d, lh, p, w, |lh|, d', p', w')
    ensures InRange(|d|, InstallWrites(g, d, lh))
    ensures d' == Apply(d, InstallWrites(g, d, lh)) && p' == Unpin(p, lh) && w' == w + InstallWrites(g, d, lh)
  {
    assert InstallWrites(g, d, lh)[..|lh|] == InstallWrites(g, d, lh) && lh[..|lh|] == lh;
  }

  lemma TakeSnoc<T>(s: seq<T>, k: nat)
    requires k < |s|
    ensures s[..k + 1] == s[..k] + [s[k]]
  {
  }

  lemma Assoc<T>(a: seq<T>, b: seq<T>, c: seq<T>)
    ensures a + b + c == a + (b + c)
  {
  }

  lemma Regroup(o: seq<Write>, a: seq<Write>, b: seq<Write>, c: seq<Write>, e: seq<Write>)
    ensures o + a + b + c + e == o + (a + b + c + e)
  {
  }

  /** The four phases of `commit` make up `CommitWrites`. */
  lemma CommitSequence(g: Geometry, d0: Disk, lh: seq<int>, vals: seq<Block>, d1: Disk, d2: Disk, d3: Disk, d4: Disk)
    requires Fits(g, d0) && Loggable(g, |d0|, lh) && |vals| == |lh|
    requires InRange(|d0|, LogWrites(g, vals)) && d1 == Apply(d0, LogWrites(g, vals))
    requires d1[g.start] == d0[g.start]
    requires d2 == d1[g.start := Encode(d1[g.start], lh)]
    requires InRange(|d0|, HomeWrites(lh, vals)) && d3 == Apply(d2, HomeWrites(lh, vals))
    requires d3[g.start] == d2[g.start]
    requires d4 == d3[g.start := Encode(d3[g.start], [])]
    ensures InRange(|d0|, CommitWrites(g, d0, lh, vals))
    ensures d4 == Apply(d0, CommitWrites(g, d0, lh, vals))
  {
    var ws1 := LogWrites(g, vals);
    var w2 := Write(g.start, Encode(d0[g.start], lh));
    var ws3 := HomeWrites(lh, vals);
    var w4 := Write(g.start, Encode(Encode(d0[g.start], lh), []));
    assert d2 == Apply(d0, ws1 + [w2]) by { ApplyConcat(d0, ws1, [w2]); assert Apply(d1, [w2]) == d2; }
    ApplyConcat(d0, ws1 + [w2], ws3);
    assert d4 == Apply(d0, ws1 + [w2] + ws3 + [w4]) by {
      ApplyConcat(d0, ws1 + [w2] + ws3, [w4]);
      assert Apply(d3, [w4]) == d4;
    }
  }
}
