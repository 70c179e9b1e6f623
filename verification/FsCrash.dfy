/** The file system on top of the log: what a crash leaves of the files.

    A run of the logging system in which operations come one at a time and each is one
    transaction of the file system.  The volume is laid out on the log's disk as fs.h says. */
module FsCrash {
  import opened Bytes
  import opened FsModel
  import opened FsFiles
  import opened FsLogged
  import Log = LogDisk
  import Run = LogRun
  import LogTheorems

  // ---------------------------------------------------------------- the volume on disk

  const DINODEWORDS: nat := 16

  /** A block as the 32-bit words that the log copies. */
  function WordsOf(b: Block): (ws: Log.Block)
    requires |b| == BSIZE
    ensures forall j :: 0 <= j < Log.BWORDS ==> ws[j] == Word(b, j)
  {
    seq(Log.BWORDS, j requires 0 <= j < Log.BWORDS => Word(b, j))
  }

  lemma Digit(x: byte, hi: int, y: byte, hi': int)
    requires x + 256 * hi == y + 256 * hi'
    ensures x == y && hi == hi'
  {
  }

  lemma MakeWordInjective(a0: byte, a1: byte, a2: byte, a3: byte, b0: byte, b1: byte, b2: byte, b3: byte)
    requires MakeWord(a0, a1, a2, a3) == MakeWord(b0, b1, b2, b3)
    ensures a0 == b0 && a1 == b1 && a2 == b2 && a3 == b3
  {
    Digit(a0, a1 + 256 * (a2 + 256 * a3), b0, b1 + 256 * (b2 + 256 * b3));
    Digit(a1, a2 + 256 * a3, b1, b2 + 256 * b3);
    Digit(a2, a3, b2, b3);
  }

  lemma WordsDetermine(a: Block, b: Block)
    requires |a| == |b| == BSIZE && WordsOf(a) == WordsOf(b)
    ensures a == b
  {
    hide MakeWord;
    forall i: nat | i < BSIZE
      ensures a[i] == b[i]
    {
      var j := i / 4;
      var k := 4 * j;
      assert WordsOf(a)[j] == WordsOf(b)[j];
      MakeWordInjective(a[k], a[k + 1], a[k + 2], a[k + 3], b[k], b[k + 1], b[k + 2], b[k + 3]);
    }
  }

  /** Word `f` of `struct dinode` number `m`: type and major number, minor number and link count, the
      size, and the block numbers.  `rest` are the second words, which the files do not depend on. */
  function DinodeWord(inodes: seq<Inode>, rest: seq<int>, m: nat, f: nat): (w: int) {
    if m >= |inodes| || |inodes[m].addrs| != NDIRECT + 1 || f >= DINODEWORDS then 0
    else if f == 0 then inodes[m].kind
    else if f == 1 then if m < |rest| then rest[m] else 0
    else if f == 2 then inodes[m].size
    else inodes[m].addrs[f - 3]
  }

  /** The k-th inode block. */
  function InodeBlock(inodes: seq<Inode>, rest: seq<int>, k: nat): (ws: Log.Block)
    ensures forall j :: 0 <= j < Log.BWORDS ==> ws[j] == DinodeWord(inodes, rest, k * IPB + j / DINODEWORDS, j % DINODEWORDS)
  {
    seq(Log.BWORDS, j requires 0 <= j < Log.BWORDS =>
      DinodeWord(inodes, rest, k * IPB + j / DINODEWORDS, j % DINODEWORDS))
  }

  /** What block `b` of the disk holds. */
  function Image(sb: Super, rest: seq<int>, v: Vol, b: nat): (ws: Log.Block)
    requires b < |v.disk| && |v.disk[b]| == BSIZE
  {
    if sb.inodestart <= b < sb.bmapstart then InodeBlock(v.inodes, rest, b - sb.inodestart) else WordsOf(v.disk[b])
  }

  /** The disk, outside the log area, holds the volume. */
  ghost predicate Shows(g: Log.Geometry, sb: Super, rest: seq<int>, d: Log.Disk, v: Vol) {
    && WellSized(sb, v.disk) && |d| == sb.size
    && forall b: nat :: Log.Home(g, sb.size, b) ==> d[b] == Image(sb, rest, v, b)
  }

  /** The log area lies before the inode blocks, and these before the free map and have room. */
  ghost predicate Layout(g: Log.Geometry, sb: Super, ninodes: nat) {
    && g.start + g.size <= sb.inodestart <= sb.bmapstart <= sb.datastart
    && ninodes <= IPB * (sb.bmapstart - sb.inodestart)
  }

  lemma InodeDetermined(v: Vol, w: Vol, rest: seq<int>, m: nat)
    requires |v.inodes| == |w.inodes| && m < |v.inodes| && HasFile(v, m) && HasFile(w, m)
    requires InodeBlock(v.inodes, rest, m / IPB) == InodeBlock(w.inodes, rest, m / IPB)
    ensures v.inodes[m] == w.inodes[m]
  {
    forall f: nat | f < DINODEWORDS
      ensures DinodeWord(v.inodes, rest, m, f) == DinodeWord(w.inodes, rest, m, f)
    {
      var j := m % IPB * DINODEWORDS + f;
      assert m / IPB * IPB + j / DINODEWORDS == m && j % DINODEWORDS == f;
      assert InodeBlock(v.inodes, rest, m / IPB)[j] == InodeBlock(w.inodes, rest, m / IPB)[j];
    }
    assert DinodeWord(v.inodes, rest, m, 0) == DinodeWord(w.inodes, rest, m, 0);
    assert DinodeWord(v.inodes, rest, m, 2) == DinodeWord(w.inodes, rest, m, 2);
    forall i: nat | i <= NDIRECT
      ensures v.inodes[m].addrs[i] == w.inodes[m].addrs[i]
    {
      var f := i + 3;
      assert DinodeWord(v.inodes, rest, m, f) == DinodeWord(w.inodes, rest, m, f);
    }
    assert v.inodes[m].addrs == w.inodes[m].addrs;
  }

  /** Nothing of the files is lost on the disk: it determines the inodes, the free map and every
      data block. */
  lemma DiskDetermines(g: Log.Geometry, sb: Super, rest: seq<int>, d: Log.Disk, v: Vol, w: Vol)
    requires Shows(g, sb, rest, d, v) && Shows(g, sb, rest, d, w) && |v.inodes| == |w.inodes| && Layout(g, sb, |v.inodes|)
    requires forall m: nat :: m < |v.inodes| ==> HasFile(v, m) && HasFile(w, m)
    ensures v.inodes == w.inodes
    ensures forall b: nat :: sb.bmapstart <= b < sb.size ==> v.disk[b] == w.disk[b]
  {
    forall m: nat | m < |v.inodes|
      ensures v.inodes[m] == w.inodes[m]
    {
      var b := sb.inodestart + m / IPB;
      assert b < sb.bmapstart;
      assert Log.Home(g, sb.size, b) && Image(sb, rest, v, b) == Image(sb, rest, w, b);
      InodeDetermined(v, w, rest, m);
    }
    forall b: nat | sb.bmapstart <= b < sb.size
      ensures v.disk[b] == w.disk[b]
    {
      assert Log.Home(g, sb.size, b) && Image(sb, rest, v, b) == Image(sb, rest, w, b);
      WordsDetermine(v.disk[b], w.disk[b]);
    }
  }

  // ---------------------------------------------------------------- one transaction

  /** A block that the transaction did not log looks the same before and after. */
  lemma UnloggedSame(sb: Super, rest: seq<int>, v: Vol, w: Vol, t: set<nat>, b: nat)
    requires Transaction(sb, v, w, t) && b < sb.size && b !in t
    ensures WellSized(sb, v.disk) && WellSized(sb, w.disk) && Image(sb, rest, v, b) == Image(sb, rest, w, b)
  {
    hide Files, Owned, MapIs;
    if sb.inodestart <= b < sb.bmapstart {
      var k := b - sb.inodestart;
      forall j: nat | j < Log.BWORDS
        ensures InodeBlock(v.inodes, rest, k)[j] == InodeBlock(w.inodes, rest, k)[j]
      {
        var m := k * IPB + j / DINODEWORDS;
        assert m / IPB == k;
      }
    }
  }

  /** The k-th entry is the last one for block `b`. */
  ghost predicate LastFor(es: seq<Run.Entry>, k: nat, b: int) {
    k < |es| && es[k].block == b && forall l :: k < l < |es| ==> es[l].block != b
  }

  /** The entries are those of a transaction that logged the blocks `t` and ended in `w`: no other
      blocks, and each of these last with its final contents. */
  ghost predicate Carries(sb: Super, rest: seq<int>, es: seq<Run.Entry>, w: Vol, t: set<nat>) {
    && WellSized(sb, w.disk)
    && (forall e :: e in es ==> e.block in t)
    && (forall b :: b in t ==> b < sb.size && Final(es, b, Image(sb, rest, w, b)))
  }

  /** The entries leave `data` in block `b`. */
  ghost predicate Final(es: seq<Run.Entry>, b: nat, data: Log.Block) {
    exists k: nat :: LastFor(es, k, b) && es[k].data == data
  }

  lemma {:induction false} PutNone(d: Log.Disk, es: seq<Run.Entry>, b: nat)
    requires b < |d| && forall e :: e in es ==> e.block != b
    ensures Run.Put(d, es)[b] == d[b]
  {
    if es != [] {
      assert es[|es| - 1] in es;
      PutNone(d, es[..|es| - 1], b);
    }
  }

  lemma {:induction false} PutLast(d: Log.Disk, es: seq<Run.Entry>, k: nat, b: nat)
    requires b < |d| && LastFor(es, k, b)
    ensures Run.Put(d, es)[b] == es[k].data
  {
    if k < |es| - 1 {
      PutLast(d, es[..|es| - 1], k, b);
    }
  }

  lemma PutFinal(d: Log.Disk, es: seq<Run.Entry>, b: nat, data: Log.Block)
    requires b < |d| && Final(es, b, data)
    ensures Run.Put(d, es)[b] == data
  {
    var k: nat :| LastFor(es, k, b) && es[k].data == data;
    PutLast(d, es, k, b);
  }

  /** The entries of a transaction, put into a disk that holds the volume before it, give a disk
      that holds the volume after it. */
  lemma TransactionShows(g: Log.Geometry, sb: Super, rest: seq<int>, d: Log.Disk, es: seq<Run.Entry>, v: Vol, w: Vol,
                         t: set<nat>)
    requires Shows(g, sb, rest, d, v) && Transaction(sb, v, w, t) && Carries(sb, rest, es, w, t)
    ensures Shows(g, sb, rest, Run.Put(d, es), w)
  {
    hide Good, Files, Image, Final, WellSized;
    Sized(sb, v.disk);
    Sized(sb, w.disk);
    forall b: nat | Log.Home(g, sb.size, b)
      ensures Run.Put(d, es)[b] == Image(sb, rest, w, b)
    {
      if b in t {
        PutFinal(d, es, b, Image(sb, rest, w, b));
      } else {
        UnloggedSame(sb, rest, v, w, t, b);
        PutNone(d, es, b);
      }
    }
  }

  /** Every transaction can be carried, by one entry for each block. */
  lemma {:induction false} CanCarry(sb: Super, rest: seq<int>, w: Vol, t: set<nat>, op: nat) returns (es: seq<Run.Entry>)
    requires WellSized(sb, w.disk) && forall b :: b in t ==> b < sb.size
    ensures Carries(sb, rest, es, w, t) && |es| == |t|
    decreases |t|
  {
    hide WellSized, Final, Image;
    Sized(sb, w.disk);
    if t == {} {
      es := [];
    } else {
      var b :| b in t;
      var es' := CanCarry(sb, rest, w, t - {b}, op);
      es := es' + [Run.Entry(op, b, Image(sb, rest, w, b))];
      forall c | c in t
        ensures Final(es, c, Image(sb, rest, w, c))
      {
        FinalMore(es', Run.Entry(op, b, Image(sb, rest, w, b)), c, Image(sb, rest, w, c));
      }
    }
  }

  lemma FinalMore(es: seq<Run.Entry>, e: Run.Entry, c: nat, data: Log.Block)
    requires (e.block == c && e.data == data) || (e.block != c && Final(es, c, data))
    ensures Final(es + [e], c, data)
  {
    if e.block == c {
      assert LastFor(es + [e], |es|, c);
    } else {
      var k: nat :| LastFor(es, k, c) && es[k].data == data;
      assert LastFor(es + [e], k, c);
    }
  }

  lemma Sized(sb: Super, disk: seq<Block>)
    requires WellSized(sb, disk)
    ensures |disk| == sb.size && forall b :: 0 <= b < sb.size ==> |disk[b]| == BSIZE
  {
  }

  // ---------------------------------------------------------------- whole runs

  /** The history of the files: the volume between operations, the one that is safe on disk, and of
      the operation that is running the disk it began with and what it has logged. */
  datatype Hist = Hist(now: Vol, safe: Vol, base: Log.Disk, es: seq<Run.Entry>)

  /** How a step of the log moves the files. */
  ghost predicate FsStep(sb: Super, rest: seq<int>, s: Run.State, h: Hist, step: Run.Step, h': Hist) {
    match step
    case BeginOp => s.active == [] && h' == h.(base := s.current, es := [])
    case Append(i, b, data) => i < |s.active| && h' == h.(es := h.es + [Run.Entry(s.active[i].id, b, data)])
    case EndOp(_) => h'.safe == h.safe && Ends(sb, rest, h, h'.now)
    case Advance => h' == if s.phase.Heading? then h.(safe := h.now) else h
    case Crash => h'.now == h'.safe == h.safe
    case _ => h' == h
  }

  /** The running operation is one transaction from `h.now` to `w`. */
  ghost predicate Ends(sb: Super, rest: seq<int>, h: Hist, w: Vol) {
    exists t :: Transaction(sb, h.now, w, t) && Carries(sb, rest, h.es, w, t)
  }

  ghost predicate FsRun(c: Run.Config, sb: Super, rest: seq<int>, states: seq<Run.State>, steps: seq<Run.Step>,
                        hs: seq<Hist>) {
    && Run.IsRun(c, states, steps) && |hs| == |states|
    && Intact(sb, hs[0].now) && hs[0].safe == hs[0].now
    && Shows(c.g, sb, rest, Log.Recovered(c.g, c.init), hs[0].now)
    && forall k {:trigger steps[k]} :: 0 <= k < |steps| ==> FsStep(sb, rest, states[k], hs[k], steps[k], hs[k + 1])
  }

  ghost predicate Intact(sb: Super, v: Vol) {
    Good(sb, v) && Files(v)
  }

  ghost predicate CrashInv(c: Run.Config, sb: Super, rest: seq<int>, s: Run.State, h: Hist) {
    && Intact(sb, h.now) && Intact(sb, h.safe) && Shows(c.g, sb, rest, s.durable, h.safe)
    && (s.active == [] ==> Shows(c.g, sb, rest, s.current, h.now))
    && (s.active != [] ==> |s.active| == 1 && Shows(c.g, sb, rest, h.base, h.now) && s.current == Run.Put(h.base, h.es))
  }

  lemma EndKeeps(c: Run.Config, sb: Super, rest: seq<int>, s: Run.State, h: Hist, i: nat, h': Hist)
    requires CrashInv(c, sb, rest, s, h) && Run.Enabled(c, s, Run.EndOp(i)) && FsStep(sb, rest, s, h, Run.EndOp(i), h')
    ensures CrashInv(c, sb, rest, Run.AfterEndOp(s, i), h')
  {
    hide Shows, Carries, Good, Files;
    var t :| Transaction(sb, h.now, h'.now, t) && Carries(sb, rest, h.es, h'.now, t);
    TransactionShows(c.g, sb, rest, h.base, h.es, h.now, h'.now, t);
  }

  lemma AppendKeeps(c: Run.Config, sb: Super, rest: seq<int>, s: Run.State, h: Hist, i: nat, b: int, data: Log.Block, h': Hist)
    requires CrashInv(c, sb, rest, s, h) && i < |s.active| && 0 <= b < |s.current|
    requires FsStep(sb, rest, s, h, Run.Append(i, b, data), h')
    ensures CrashInv(c, sb, rest, Run.AfterAppend(s, i, b, data), h')
  {
    hide Shows, Intact;
    Run.PutSnoc(h.base, h.es, Run.Entry(s.active[i].id, b, data));
  }

  lemma WriteKeeps(c: Run.Config, sb: Super, rest: seq<int>, s: Run.State, h: Hist, h': Hist)
    requires CrashInv(c, sb, rest, s, h) && Run.CountInv(s) && Run.Enabled(c, s, Run.Advance)
    requires FsStep(sb, rest, s, h, Run.Advance, h')
    ensures CrashInv(c, sb, rest, Run.Next(c, s, Run.Advance), h')
  {
    hide Shows, Intact, Run.WriteReady;
  }

  /** The other steps neither write nor begin or end an operation, or lose everything since the last
      commit. */
  lemma OtherKeeps(c: Run.Config, sb: Super, rest: seq<int>, s: Run.State, h: Hist, step: Run.Step, h': Hist)
    requires CrashInv(c, sb, rest, s, h) && Run.Enabled(c, s, step) && FsStep(sb, rest, s, h, step, h')
    requires !step.Append? && !step.EndOp? && !step.Advance?
    ensures CrashInv(c, sb, rest, Run.Next(c, s, step), h')
  {
    hide Shows, Intact;
  }

  lemma CrashStep(c: Run.Config, sb: Super, rest: seq<int>, s: Run.State, h: Hist, step: Run.Step, h': Hist)
    requires LogTheorems.RunInv(c, s) && CrashInv(c, sb, rest, s, h)
    requires Run.Enabled(c, s, step) && FsStep(sb, rest, s, h, step, h')
    ensures CrashInv(c, sb, rest, Run.Next(c, s, step), h')
  {
    hide CrashInv, FsStep, Run.DiskInv, LogTheorems.CoreInv;
    InvFacts(c, s, step);
    match step {
      case Append(i, b, data) => AppendKeeps(c, sb, rest, s, h, i, b, data, h');
      case EndOp(i) => EndKeeps(c, sb, rest, s, h, i, h');
      case Advance => WriteKeeps(c, sb, rest, s, h, h');
      case _ => OtherKeeps(c, sb, rest, s, h, step, h');
    }
  }

  lemma InvFacts(c: Run.Config, s: Run.State, step: Run.Step)
    requires LogTheorems.RunInv(c, s) && Run.Enabled(c, s, step)
    ensures Run.CountInv(s) && (step.Append? ==> 0 <= step.b < |s.current|)
  {
    if step.Append? { LogTheorems.ReadsWholeDisk(c, s, step); }
  }

  lemma {:induction false} CrashKeeps(c: Run.Config, sb: Super, rest: seq<int>, states: seq<Run.State>,
                                      steps: seq<Run.Step>, hs: seq<Hist>, k: nat)
    requires FsRun(c, sb, rest, states, steps, hs) && k <= |steps|
    ensures CrashInv(c, sb, rest, states[k], hs[k])
  {
    hide CrashInv, FsStep, Shows, Intact, Run.Enabled, Run.Next, Run.Init, LogTheorems.RunInv, LogTheorems.Serial,
      LogTheorems.SerialInv;
    if k == 0 {
      CrashStart(c, sb, rest, states[0], hs[0]);
    } else {
      CrashKeeps(c, sb, rest, states, steps, hs, k - 1);
      OneAtATime(c, sb, rest, states, steps, hs);
      LogTheorems.SerialKeeps(c, states, steps, k - 1);
      var step := steps[k - 1];
      assert states[k] == Run.Next(c, states[k - 1], step) && Run.Enabled(c, states[k - 1], step);
      assert FsStep(sb, rest, states[k - 1], hs[k - 1], step, hs[k]);
      CrashStep(c, sb, rest, states[k - 1], hs[k - 1], step, hs[k]);
    }
  }

  lemma OneAtATime(c: Run.Config, sb: Super, rest: seq<int>, states: seq<Run.State>, steps: seq<Run.Step>, hs: seq<Hist>)
    requires FsRun(c, sb, rest, states, steps, hs)
    ensures LogTheorems.Serial(states, steps)
  {
    hide Shows, Intact, Ends;
    forall k | 0 <= k < |steps| && steps[k] == Run.BeginOp
      ensures states[k].active == []
    {
      assert FsStep(sb, rest, states[k], hs[k], steps[k], hs[k + 1]);
    }
  }

  lemma CrashStart(c: Run.Config, sb: Super, rest: seq<int>, s: Run.State, h: Hist)
    requires Run.Init(c, s) && Intact(sb, h.now) && h.safe == h.now
    requires Shows(c.g, sb, rest, Log.Recovered(c.g, c.init), h.now)
    ensures CrashInv(c, sb, rest, s, h)
  {
  }

  /** The volume that is safe is one that there was between operations, no later than now. */
  ghost predicate WasNow(states: seq<Run.State>, hs: seq<Hist>, k: nat) {
    exists j: nat :: j <= k && j < |states| && k < |hs| && states[j].active == [] && hs[k].safe == hs[j].now
  }

  lemma {:induction false} SafeWasNow(c: Run.Config, sb: Super, rest: seq<int>, states: seq<Run.State>,
                                      steps: seq<Run.Step>, hs: seq<Hist>, k: nat)
    requires FsRun(c, sb, rest, states, steps, hs) && k <= |steps|
    ensures WasNow(states, hs, k)
  {
    hide Shows, Intact, Ends, Run.Next;
    if k == 0 {
      assert states[0].active == [];
    } else {
      SafeWasNow(c, sb, rest, states, steps, hs, k - 1);
      LogTheorems.CoreKeeps(c, states, steps, k - 1);
      var j: nat :| j <= k - 1 && states[j].active == [] && hs[k - 1].safe == hs[j].now;
      var step := steps[k - 1];
      assert Run.Enabled(c, states[k - 1], step);
      assert FsStep(sb, rest, states[k - 1], hs[k - 1], step, hs[k]);
      if step.Advance? && states[k - 1].phase.Heading? {
        assert states[k - 1].active == [] && hs[k].safe == hs[k - 1].now;
      } else {
        assert hs[k].safe == hs[j].now;
      }
    }
  }

  /** Crash at any point of any sequence of file-system transactions, let any recoveries be
      interrupted, and let one complete: the disk holds a volume in which no block has two owners,
      the free map is exact and no file has a hole; and it is the volume that there was between two
      transactions. */
  lemma CrashLeavesFiles(c: Run.Config, sb: Super, rest: seq<int>, states: seq<Run.State>, steps: seq<Run.Step>,
                         hs: seq<Hist>, k: nat, cuts: seq<nat>)
    requires FsRun(c, sb, rest, states, steps, hs) && k <= |steps|
    ensures Good(sb, hs[k].safe) && Files(hs[k].safe) && WasNow(states, hs, k)
    ensures Log.Readable(c.g, states[k].disk)
    ensures Shows(c.g, sb, rest, Log.Recovered(c.g, states[k].disk), hs[k].safe)
    ensures Log.CanInterrupt(c.g, states[k].disk, cuts) ==>
              var e := Log.Interrupted(c.g, states[k].disk, cuts);
              Log.Readable(c.g, e) && Shows(c.g, sb, rest, Log.Recovered(c.g, e), hs[k].safe)
  {
    CrashKeeps(c, sb, rest, states, steps, hs, k);
    SafeWasNow(c, sb, rest, states, steps, hs, k);
    OneAtATime(c, sb, rest, states, steps, hs);
    LogTheorems.SerialKeeps(c, states, steps, k);
    LogTheorems.RecoversDurable(c, states[k], cuts);
    var s, h := states[k], hs[k];
    SameHomeShows(c.g, sb, rest, s.durable, Log.Recovered(c.g, s.disk), h.safe);
    if Log.CanInterrupt(c.g, s.disk, cuts) {
      SameHomeShows(c.g, sb, rest, s.durable, Log.Recovered(c.g, Log.Interrupted(c.g, s.disk, cuts)), h.safe);
    }
  }

  lemma SameHomeShows(g: Log.Geometry, sb: Super, rest: seq<int>, d: Log.Disk, e: Log.Disk, v: Vol)
    requires Shows(g, sb, rest, d, v) && Log.SameHome(g, e, d)
    ensures Shows(g, sb, rest, e, v)
  {
  }
}
