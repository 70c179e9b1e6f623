/** The on-disk redo log: its layout, the block writes that `commit` and
    `recover_from_log` issue, and what a crash between any two of them leaves behind.

    A block is a sequence of 32-bit words.  The header block of the log holds a count in its
    first word and that many home block numbers after it; the i-th block after the header
    holds the new contents of the i-th home block. */
module LogDisk {
  import opened Common

  const MAXOPBLOCKS: nat := 10
  const LOGSIZE: nat := MAXOPBLOCKS * 3
  const BWORDS: nat := 128

  type Block = b: seq<int> | |b| == BWORDS witness seq(BWORDS, _ => 0)
  type Disk = seq<Block>

  /** Where the log lives: `log.start` and `log.size`. */
  datatype Geometry = Geometry(start: nat, size: nat)

  ghost predicate Fits(g: Geometry, d: Disk) {
    1 <= g.size && g.start + g.size <= |d|
  }

  /** A block that is not part of the log area. */
  predicate Home(g: Geometry, size: nat, b: int) {
    0 <= b < size && !(g.start <= b < g.start + g.size)
  }

  /** A list of home blocks, each once, that the in-memory header has room for. */
  ghost predicate Listable(g: Geometry, size: nat, lh: seq<int>) {
    && |lh| <= LOGSIZE && Distinct(lh)
    && forall i :: 0 <= i < |lh| ==> Home(g, size, lh[i])
  }

  /** The log area has room for them as well. */
  ghost predicate Loggable(g: Geometry, size: nat, lh: seq<int>) {
    Listable(g, size, lh) && |lh| < g.size
  }

  // ---------------------------------------------------------------- the header block

  /** The header block after `write_head`: words beyond the list keep their old contents. */
  function Encode(was: Block, lh: seq<int>): (b: Block)
    requires |lh| <= LOGSIZE
    ensures b[0] == |lh| && b[1..1 + |lh|] == lh
  {
    [|lh|] + lh + was[1 + |lh|..]
  }

  /** The list that `read_head` finds in a header block. */
  function Decode(b: Block): (lh: seq<int>)
    requires 0 <= b[0] <= LOGSIZE
    ensures |lh| == b[0]
  {
    b[1..1 + b[0]]
  }

  /** The disk carries a readable log header. */
  ghost predicate Readable(g: Geometry, d: Disk) {
    && Fits(g, d)
    && 0 <= d[g.start][0] <= LOGSIZE
    && Loggable(g, |d|, Decode(d[g.start]))
  }

  // ---------------------------------------------------------------- block writes

  /** One atomic write of a whole block. */
  datatype Write = Write(addr: int, data: Block)

  ghost predicate InRange(size: nat, ws: seq<Write>) {
    forall i :: 0 <= i < |ws| ==> 0 <= ws[i].addr < size
  }

  /** The disk after the given writes, in order. */
  function Apply(d: Disk, ws: seq<Write>): (r: Disk)
    requires forall i :: 0 <= i < |ws| ==> 0 <= ws[i].addr < |d|
    ensures |r| == |d|
  {
    if ws == [] then d
    else
      var w := ws[|ws| - 1];
      Apply(d, ws[..|ws| - 1])[w.addr := w.data]
  }

  lemma {:induction false} ApplyConcat(d: Disk, xs: seq<Write>, ys: seq<Write>)
    requires InRange(|d|, xs) && InRange(|d|, ys)
    ensures InRange(|d|, xs + ys)
    ensures Apply(d, xs + ys) == Apply(Apply(d, xs), ys)
  {
    assert InRange(|d|, xs + ys);
    if ys == [] {
      assert xs + ys == xs;
    } else {
      var zs := ys[..|ys| - 1];
      ApplyConcat(d, xs, zs);
      assert (xs + ys)[..|xs + ys| - 1] == xs + zs;
    }
  }

  lemma {:induction false} ApplyUntouched(d: Disk, ws: seq<Write>, b: nat)
    requires InRange(|d|, ws) && b < |d|
    requires forall i :: 0 <= i < |ws| ==> ws[i].addr != b
    ensures Apply(d, ws)[b] == d[b]
  {
    if ws != [] {
      ApplyUntouched(d, ws[..|ws| - 1], b);
    }
  }

  /** The last write to a block decides its contents. */
  lemma {:induction false} ApplyLast(d: Disk, ws: seq<Write>, i: nat)
    requires InRange(|d|, ws) && i < |ws|
    requires forall j :: i < j < |ws| ==> ws[j].addr != ws[i].addr
    ensures Apply(d, ws)[ws[i].addr] == ws[i].data
  {
    if i < |ws| - 1 {
      ApplyLast(d, ws[..|ws| - 1], i);
    }
  }

  // ---------------------------------------------------------------- the writes of log.c

  /** `write_log`: the new contents go to the blocks after the header. */
  function LogWrites(g: Geometry, vals: seq<Block>): (ws: seq<Write>)
    ensures |ws| == |vals|
    ensures forall i {:trigger ws[i]} :: 0 <= i < |ws| ==> ws[i] == Write(g.start + 1 + i, vals[i])
  {
    seq(|vals|, i requires 0 <= i < |vals| => Write(g.start + 1 + i, vals[i]))
  }

  /** `install_trans`: the blocks after the header go to their homes. */
  function InstallWrites(g: Geometry, d: Disk, lh: seq<int>): (ws: seq<Write>)
    requires g.start + |lh| < |d|
    ensures |ws| == |lh|
    ensures forall i {:trigger ws[i]} :: 0 <= i < |ws| ==> ws[i] == Write(lh[i], d[g.start + 1 + i])
  {
    seq(|lh|, i requires 0 <= i < |lh| => Write(lh[i], d[g.start + 1 + i]))
  }

  /** Writes that put `vals` straight into their homes. */
  function HomeWrites(lh: seq<int>, vals: seq<Block>): (ws: seq<Write>)
    requires |lh| == |vals|
    ensures |ws| == |lh|
    ensures forall i {:trigger ws[i]} :: 0 <= i < |ws| ==> ws[i] == Write(lh[i], vals[i])
  {
    seq(|lh|, i requires 0 <= i < |lh| => Write(lh[i], vals[i]))
  }

  /** All writes of `commit` for a transaction `lh` with new contents `vals`. */
  function CommitWrites(g: Geometry, d: Disk, lh: seq<int>, vals: seq<Block>): (ws: seq<Write>)
    requires g.start < |d| && |lh| == |vals| <= LOGSIZE
    ensures |ws| == 2 * |lh| + 2
  {
    var head := Encode(d[g.start], lh);
    LogWrites(g, vals) + [Write(g.start, head)] + HomeWrites(lh, vals) + [Write(g.start, Encode(head, []))]
  }

  /** All writes of `recover_from_log`. */
  function RecoverWrites(g: Geometry, d: Disk): (ws: seq<Write>)
    requires Readable(g, d)
    ensures |ws| == |Decode(d[g.start])| + 1
    ensures InRange(|d|, ws)
  {
    var lh := Decode(d[g.start]);
    assert forall i :: 0 <= i < |lh| ==> Home(g, |d|, lh[i]);
    InstallWrites(g, d, lh) + [Write(g.start, Encode(d[g.start], []))]
  }

  /** The disk after a recovery that runs to its end. */
  function Recovered(g: Geometry, d: Disk): (r: Disk)
    requires Readable(g, d)
    ensures |r| == |d|
  {
    Apply(d, RecoverWrites(g, d))
  }

  /** The disk with a whole transaction put into its homes. */
  function Updated(d: Disk, lh: seq<int>, vals: seq<Block>): (r: Disk)
    requires |lh| == |vals| && forall i :: 0 <= i < |lh| ==> 0 <= lh[i] < |d|
    ensures |r| == |d|
  {
    Apply(d, HomeWrites(lh, vals))
  }

  lemma UpdatedAt(d: Disk, lh: seq<int>, vals: seq<Block>, b: nat)
    requires |lh| == |vals| && Distinct(lh) && forall i :: 0 <= i < |lh| ==> 0 <= lh[i] < |d|
    requires b < |d|
    ensures b !in lh ==> Updated(d, lh, vals)[b] == d[b]
    ensures forall i :: 0 <= i < |lh| && lh[i] == b ==> Updated(d, lh, vals)[b] == vals[i]
  {
    var ws := HomeWrites(lh, vals);
    if b in lh {
      var i :| 0 <= i < |lh| && lh[i] == b;
      ApplyLast(d, ws, i);
    } else {
      ApplyUntouched(d, ws, b);
    }
  }

  /** Agreement on every block outside the log area. */
  ghost predicate SameHome(g: Geometry, d: Disk, e: Disk) {
    |d| == |e| && forall b :: Home(g, |d|, b) ==> d[b] == e[b]
  }

  // ---------------------------------------------------------------- recovery

  /** What recovery leaves in each home block: the logged copy if the header lists the block,
      and otherwise what was there. */
  lemma RecoveredAt(g: Geometry, d: Disk, b: int)
    requires Readable(g, d) && Home(g, |d|, b)
    ensures b !in Decode(d[g.start]) ==> Recovered(g, d)[b] == d[b]
    ensures forall i :: 0 <= i < d[g.start][0] && Decode(d[g.start])[i] == b ==>
                          Recovered(g, d)[b] == d[g.start + 1 + i]
  {
    var lh := Decode(d[g.start]);
    var ws := RecoverWrites(g, d);
    if b in lh {
      var i :| 0 <= i < |lh| && lh[i] == b;
      ApplyLast(d, ws, i);
    } else {
      ApplyUntouched(d, ws, b);
    }
  }

  /** A completed recovery clears the header. */
  lemma RecoveredHead(g: Geometry, d: Disk)
    requires Readable(g, d)
    ensures Readable(g, Recovered(g, d)) && Decode(Recovered(g, d)[g.start]) == []
  {
  }

  /** Writes to home blocks leave the log area alone. */
  lemma {:induction false} HomeWritesKeepLog(g: Geometry, d: Disk, ws: seq<Write>, b: nat)
    requires InRange(|d|, ws) && g.start <= b < g.start + g.size <= |d|
    requires forall i :: 0 <= i < |ws| ==> Home(g, |d|, ws[i].addr)
    ensures Apply(d, ws)[b] == d[b]
  {
    ApplyUntouched(d, ws, b);
  }

  /** A recovery cut short after `k` of its writes can be run again: the header is still
      readable and a completed recovery ends in the same home blocks as before. */
  lemma RecoveryRestarts(g: Geometry, d: Disk, k: nat)
    requires Readable(g, d) && k <= |RecoverWrites(g, d)|
    ensures Readable(g, Apply(d, RecoverWrites(g, d)[..k]))
    ensures SameHome(g, Recovered(g, Apply(d, RecoverWrites(g, d)[..k])), Recovered(g, d))
  {
    hide Apply, Decode, Readable, Loggable;
    var ws := RecoverWrites(g, d);
    if k == |ws| {
      assert ws[..k] == ws;
      RecoveredAgain(g, d);
    } else {
      CutKeepsLog(g, d, k);
      var e := Apply(d, ws[..k]);
      forall b | Home(g, |d|, b)
        ensures Recovered(g, e)[b] == Recovered(g, d)[b]
      {
        CutRecovers(g, d, k, b);
      }
    }
  }

  /** There is nothing left to do after a recovery that has completed. */
  lemma RecoveredAgain(g: Geometry, d: Disk)
    requires Readable(g, d)
    ensures Readable(g, Recovered(g, d)) && SameHome(g, Recovered(g, Recovered(g, d)), Recovered(g, d))
  {
    RecoveredHead(g, d);
    hide Recovered;
    forall b | Home(g, |d|, b)
      ensures Recovered(g, Recovered(g, d))[b] == Recovered(g, d)[b]
    {
      RecoveredAt(g, Recovered(g, d), b);
    }
  }

  /** Until the header is cleared, recovery leaves the log area alone. */
  lemma CutKeepsLog(g: Geometry, d: Disk, k: nat)
    requires Readable(g, d) && k < |RecoverWrites(g, d)|
    ensures var e := Apply(d, RecoverWrites(g, d)[..k]);
            && Readable(g, e) && e[g.start] == d[g.start]
            && forall b :: g.start <= b < g.start + g.size ==> e[b] == d[b]
  {
    hide Apply;
    var ws := RecoverWrites(g, d);
    assert forall i :: 0 <= i < k ==> Home(g, |d|, ws[i].addr);
    forall b | g.start <= b < g.start + g.size
      ensures Apply(d, ws[..k])[b] == d[b]
    {
      HomeWritesKeepLog(g, d, ws[..k], b);
    }
  }

  lemma CutRecovers(g: Geometry, d: Disk, k: nat, b: int)
    requires Readable(g, d) && k < |RecoverWrites(g, d)| && Home(g, |d|, b)
    requires Readable(g, Apply(d, RecoverWrites(g, d)[..k]))
    ensures Recovered(g, Apply(d, RecoverWrites(g, d)[..k]))[b] == Recovered(g, d)[b]
  {
    hide Apply, Recovered;
    var ws := RecoverWrites(g, d);
    CutKeepsLog(g, d, k);
    RecoveredAt(g, d, b);
    RecoveredAt(g, Apply(d, ws[..k]), b);
    if b !in Decode(d[g.start]) {
      ApplyUntouched(d, ws[..k], b);
    }
  }

  /** Recoveries that are each cut short: the j-th stops after `cuts[j]` of its writes. */
  ghost predicate CanInterrupt(g: Geometry, d: Disk, cuts: seq<nat>)
    decreases |cuts|
  {
    && Readable(g, d)
    && (cuts == [] ||
        (cuts[0] <= |RecoverWrites(g, d)| &&
         CanInterrupt(g, Apply(d, RecoverWrites(g, d)[..cuts[0]]), cuts[1..])))
  }

  ghost function Interrupted(g: Geometry, d: Disk, cuts: seq<nat>): (r: Disk)
    requires CanInterrupt(g, d, cuts)
    decreases |cuts|
  {
    if cuts == [] then d
    else Interrupted(g, Apply(d, RecoverWrites(g, d)[..cuts[0]]), cuts[1..])
  }

  /** Any number of interrupted recoveries, then one that completes, has the effect of one. */
  lemma {:induction false} RecoveryIdempotent(g: Geometry, d: Disk, cuts: seq<nat>)
    requires CanInterrupt(g, d, cuts)
    ensures Readable(g, Interrupted(g, d, cuts))
    ensures SameHome(g, Recovered(g, Interrupted(g, d, cuts)), Recovered(g, d))
    decreases |cuts|
  {
    if cuts != [] {
      var e := Apply(d, RecoverWrites(g, d)[..cuts[0]]);
      RecoveryRestarts(g, d, cuts[0]);
      RecoveryIdempotent(g, e, cuts[1..]);
    }
  }

  // ---------------------------------------------------------------- crash atomicity

  /** The writes of `commit`, position by position. */
  ghost predicate IsCommit(g: Geometry, d: Disk, lh: seq<int>, vals: seq<Block>, ws: seq<Write>)
    requires g.start < |d| && |lh| == |vals| <= LOGSIZE
  {
    var n := |lh|;
    && |ws| == 2 * n + 2
    && (forall i {:trigger ws[i]} :: 0 <= i < n ==> ws[i] == Write(g.start + 1 + i, vals[i]))
    && ws[n] == Write(g.start, Encode(d[g.start], lh))
    && (forall j {:trigger ws[j]} :: n < j <= 2 * n ==> ws[j] == Write(lh[j - n - 1], vals[j - n - 1]))
    && ws[2 * n + 1] == Write(g.start, Encode(Encode(d[g.start], lh), []))
  }

  lemma CommitWritesAre(g: Geometry, d: Disk, lh: seq<int>, vals: seq<Block>)
    requires Fits(g, d) && |vals| == |lh| <= LOGSIZE
    ensures IsCommit(g, d, lh, vals, CommitWrites(g, d, lh, vals))
  {
    var ws := CommitWrites(g, d, lh, vals);
    assert forall j :: |lh| < j <= 2 * |lh| ==> ws[j] == HomeWrites(lh, vals)[j - |lh| - 1];
  }

  lemma CommitInRange(g: Geometry, d: Disk, lh: seq<int>, vals: seq<Block>, ws: seq<Write>)
    requires Fits(g, d) && Loggable(g, |d|, lh) && |vals| == |lh|
    requires IsCommit(g, d, lh, vals, ws)
    ensures InRange(|d|, ws)
  {
    forall i | 0 <= i < |ws|
      ensures 0 <= ws[i].addr < |d|
    {
      if |lh| < i <= 2 * |lh| { InstallAddr(g, d, lh, vals, ws, i); }
    }
  }

  /** Up to and including the last write of `write_log`, no home block and no header word
      has changed. */
  lemma BeforeHead(g: Geometry, d: Disk, lh: seq<int>, vals: seq<Block>, ws: seq<Write>, k: nat)
    requires Fits(g, d) && Loggable(g, |d|, lh) && |vals| == |lh| && k <= |lh|
    requires IsCommit(g, d, lh, vals, ws) && InRange(|d|, ws)
    ensures var e := Apply(d, ws[..k]);
            SameHome(g, e, d) && e[g.start] == d[g.start]
  {
    forall b | Home(g, |d|, b) || b == g.start
      ensures Apply(d, ws[..k])[b] == d[b]
    {
      ApplyUntouched(d, ws[..k], b);
    }
  }

  /** The addresses that `commit` writes after the header are homes of the transaction. */
  lemma InstallAddr(g: Geometry, d: Disk, lh: seq<int>, vals: seq<Block>, ws: seq<Write>, j: nat)
    requires Fits(g, d) && Loggable(g, |d|, lh) && |vals| == |lh|
    requires IsCommit(g, d, lh, vals, ws) && |lh| < j <= 2 * |lh|
    ensures ws[j].addr == lh[j - |lh| - 1] && ws[j].addr in lh && Home(g, |d|, ws[j].addr)
  {
  }

  /** From the header write on, and until the header is erased, the header lists the
      transaction. */
  lemma AfterHead(g: Geometry, d: Disk, lh: seq<int>, vals: seq<Block>, ws: seq<Write>, k: nat)
    requires Fits(g, d) && Loggable(g, |d|, lh) && |vals| == |lh| && |lh| < k <= 2 * |lh| + 1
    requires IsCommit(g, d, lh, vals, ws) && InRange(|d|, ws)
    ensures Apply(d, ws[..k])[g.start] == Encode(d[g.start], lh)
  {
    forall j | |lh| < j < k
      ensures ws[j].addr != g.start
    {
      InstallAddr(g, d, lh, vals, ws, j);
    }
    ApplyLast(d, ws[..k], |lh|);
  }

  /** ... and the blocks after the header hold its new contents. */
  lemma LoggedCopy(g: Geometry, d: Disk, lh: seq<int>, vals: seq<Block>, ws: seq<Write>, k: nat, i: nat)
    requires Fits(g, d) && Loggable(g, |d|, lh) && |vals| == |lh| && |lh| < k <= |ws| && i < |lh|
    requires IsCommit(g, d, lh, vals, ws) && InRange(|d|, ws)
    ensures Apply(d, ws[..k])[g.start + 1 + i] == vals[i]
  {
    hide Apply;
    var us := ws[..k];
    forall j | i < j < k
      ensures us[j].addr != us[i].addr
    {
      if |lh| < j <= 2 * |lh| { InstallAddr(g, d, lh, vals, ws, j); }
    }
    ApplyLast(d, us, i);
  }

  /** `commit` leaves the homes that are not in its transaction alone. */
  lemma OtherHome(g: Geometry, d: Disk, lh: seq<int>, vals: seq<Block>, ws: seq<Write>, k: nat, b: int)
    requires Fits(g, d) && Loggable(g, |d|, lh) && |vals| == |lh| && k <= |ws|
    requires IsCommit(g, d, lh, vals, ws) && InRange(|d|, ws)
    requires Home(g, |d|, b) && b !in lh
    ensures Apply(d, ws[..k])[b] == d[b]
  {
    forall j | 0 <= j < k
      ensures ws[j].addr != b
    {
      if |lh| < j <= 2 * |lh| { InstallAddr(g, d, lh, vals, ws, j); }
    }
    ApplyUntouched(d, ws[..k], b);
  }

  /** Once `install_trans` has run, every home of the transaction holds its new contents. */
  lemma InstalledHome(g: Geometry, d: Disk, lh: seq<int>, vals: seq<Block>, ws: seq<Write>, i: nat)
    requires Fits(g, d) && Loggable(g, |d|, lh) && |vals| == |lh| && i < |lh|
    requires IsCommit(g, d, lh, vals, ws) && InRange(|d|, ws)
    ensures Home(g, |d|, lh[i]) && Apply(d, ws)[lh[i]] == vals[i]
  {
    var j := |lh| + 1 + i;
    InstallAddr(g, d, lh, vals, ws, j);
    forall l | j < l < |ws|
      ensures ws[l].addr != ws[j].addr
    {
      if l <= 2 * |lh| { InstallAddr(g, d, lh, vals, ws, l); }
    }
    ApplyLast(d, ws, j);
  }

  /** The disk left by a crash inside `commit` has a readable header. */
  lemma CrashedCommitReadable(g: Geometry, d: Disk, lh: seq<int>, vals: seq<Block>, ws: seq<Write>, k: nat)
    requires Readable(g, d) && Decode(d[g.start]) == []
    requires Loggable(g, |d|, lh) && |vals| == |lh|
    requires IsCommit(g, d, lh, vals, ws) && InRange(|d|, ws) && k <= |ws|
    ensures Readable(g, Apply(d, ws[..k]))
  {
    if k <= |lh| {
      BeforeHead(g, d, lh, vals, ws, k);
    } else if k <= 2 * |lh| + 1 {
      AfterHead(g, d, lh, vals, ws, k);
    } else {
      assert ws[..k] == ws;
    }
  }

  lemma CrashedCommitRecovers(g: Geometry, d: Disk, lh: seq<int>, vals: seq<Block>, ws: seq<Write>, k: nat, b: int)
    requires Readable(g, d) && Decode(d[g.start]) == []
    requires Loggable(g, |d|, lh) && |vals| == |lh|
    requires IsCommit(g, d, lh, vals, ws) && InRange(|d|, ws) && k <= |ws|
    requires Readable(g, Apply(d, ws[..k])) && Home(g, |d|, b)
    ensures k <= |lh| ==> Recovered(g, Apply(d, ws[..k]))[b] == d[b]
    ensures k > |lh| ==> Recovered(g, Apply(d, ws[..k]))[b] == Updated(d, lh, vals)[b]
  {
    if k <= |lh| {
      UncommittedRecovers(g, d, lh, vals, ws, k, b);
    } else if k <= 2 * |lh| + 1 {
      CommittedRecovers(g, d, lh, vals, ws, k, b);
    } else {
      assert ws[..k] == ws;
      FinishedRecovers(g, d, lh, vals, ws, b);
    }
  }

  lemma UncommittedRecovers(g: Geometry, d: Disk, lh: seq<int>, vals: seq<Block>, ws: seq<Write>, k: nat, b: int)
    requires Readable(g, d) && Decode(d[g.start]) == []
    requires Loggable(g, |d|, lh) && |vals| == |lh|
    requires IsCommit(g, d, lh, vals, ws) && InRange(|d|, ws) && k <= |lh|
    requires Readable(g, Apply(d, ws[..k])) && Home(g, |d|, b)
    ensures Recovered(g, Apply(d, ws[..k]))[b] == d[b]
  {
    var e := Apply(d, ws[..k]);
    assert SameHome(g, e, d) && e[g.start] == d[g.start] by { BeforeHead(g, d, lh, vals, ws, k); }
    assert Recovered(g, e)[b] == e[b] by { RecoveredAt(g, e, b); }
  }

  lemma FinishedRecovers(g: Geometry, d: Disk, lh: seq<int>, vals: seq<Block>, ws: seq<Write>, b: int)
    requires Fits(g, d) && Loggable(g, |d|, lh) && |vals| == |lh|
    requires IsCommit(g, d, lh, vals, ws) && InRange(|d|, ws)
    requires Readable(g, Apply(d, ws)) && Home(g, |d|, b)
    ensures Recovered(g, Apply(d, ws))[b] == Updated(d, lh, vals)[b]
  {
    var e := Apply(d, ws);
    assert Decode(e[g.start]) == [];
    assert Recovered(g, e)[b] == e[b] by { RecoveredAt(g, e, b); }
    FinishedHome(g, d, lh, vals, ws, b);
  }

  lemma CommittedRecovers(g: Geometry, d: Disk, lh: seq<int>, vals: seq<Block>, ws: seq<Write>, k: nat, b: int)
    requires Fits(g, d) && Loggable(g, |d|, lh) && |vals| == |lh|
    requires IsCommit(g, d, lh, vals, ws) && InRange(|d|, ws) && |lh| < k <= 2 * |lh| + 1
    requires Readable(g, Apply(d, ws[..k])) && Home(g, |d|, b)
    ensures Recovered(g, Apply(d, ws[..k]))[b] == Updated(d, lh, vals)[b]
  {
    var e := Apply(d, ws[..k]);
    AfterHead(g, d, lh, vals, ws, k);
    assert Decode(e[g.start]) == lh;
    if i :| 0 <= i < |lh| && lh[i] == b {
      LoggedCopy(g, d, lh, vals, ws, k, i);
      assert Recovered(g, e)[b] == e[g.start + 1 + i] by { RecoveredAt(g, e, b); }
      assert Updated(d, lh, vals)[b] == vals[i] by { UpdatedAt(d, lh, vals, b); }
    } else {
      OtherHome(g, d, lh, vals, ws, k, b);
      assert Recovered(g, e)[b] == e[b] by { RecoveredAt(g, e, b); }
      assert Updated(d, lh, vals)[b] == d[b] by { UpdatedAt(d, lh, vals, b); }
    }
  }

  lemma FinishedHome(g: Geometry, d: Disk, lh: seq<int>, vals: seq<Block>, ws: seq<Write>, b: int)
    requires Fits(g, d) && Loggable(g, |d|, lh) && |vals| == |lh|
    requires IsCommit(g, d, lh, vals, ws) && InRange(|d|, ws) && Home(g, |d|, b)
    ensures Apply(d, ws)[b] == Updated(d, lh, vals)[b]
  {
    if i :| 0 <= i < |lh| && lh[i] == b {
      InstalledHome(g, d, lh, vals, ws, i);
      assert Updated(d, lh, vals)[b] == vals[i] by { UpdatedAt(d, lh, vals, b); }
    } else {
      OtherHome(g, d, lh, vals, ws, |ws|, b);
      assert ws[..|ws|] == ws;
      assert Updated(d, lh, vals)[b] == d[b] by { UpdatedAt(d, lh, vals, b); }
    }
  }

  /** Crash atomicity.  Stop `commit` after any number of its block writes; let any number of
      recoveries be cut short after that; the recovery that completes leaves every home block
      as it was before the transaction if the header had not been written, and as the whole
      transaction makes it if it had, and leaves an empty log. */
  lemma CommitIsAtomic(g: Geometry, d: Disk, lh: seq<int>, vals: seq<Block>, k: nat, cuts: seq<nat>)
    requires Readable(g, d) && Decode(d[g.start]) == []
    requires Loggable(g, |d|, lh) && |vals| == |lh|
    requires k <= 2 * |lh| + 2
    ensures InRange(|d|, CommitWrites(g, d, lh, vals))
    ensures var e := Apply(d, CommitWrites(g, d, lh, vals)[..k]);
            Readable(g, e) &&
            (CanInterrupt(g, e, cuts) ==>
               var f := Interrupted(g, e, cuts);
               && Readable(g, f)
               && SameHome(g, Recovered(g, f), if k <= |lh| then d else Updated(d, lh, vals))
               && Decode(Recovered(g, f)[g.start]) == [])
  {
    var ws := CommitWrites(g, d, lh, vals);
    CommitWritesAre(g, d, lh, vals);
    CommitInRange(g, d, lh, vals, ws);
    CrashedCommitReadable(g, d, lh, vals, ws, k);
    var e := Apply(d, ws[..k]);
    forall b | Home(g, |d|, b)
      ensures Recovered(g, e)[b] == (if k <= |lh| then d else Updated(d, lh, vals))[b]
    {
      CrashedCommitRecovers(g, d, lh, vals, ws, k, b);
    }
    if CanInterrupt(g, e, cuts) {
      RecoveryIdempotent(g, e, cuts);
      RecoveredHead(g, Interrupted(g, e, cuts));
    }
  }
}
