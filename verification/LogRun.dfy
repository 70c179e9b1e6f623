/** Whole runs of the logging system: any interleaving of the critical sections of
    `begin_op`, `log_write` and `end_op` and of the two size tests that `log_write` makes before
    it takes the lock, with the block writes of `commit` and of recovery as single steps, and a
    crash possible between any two steps. */
module LogRun {
  import opened Common
  import opened LogDisk
  import opened LogCode

  /** One `log_write`, remembered with the operation that made it. */
  datatype Entry = Entry(op: nat, block: int, data: Block)

  /** What one commit made durable: the operations in it and all their writes, in order. */
  datatype Group = Group(ops: set<nat>, entries: seq<Entry>)

  /** An operation between `begin_op` and `end_op`, with the blocks it has logged and the number
      of size tests it has passed in the `log_write` it is in. */
  datatype ActiveOp = ActiveOp(id: nat, blocks: set<int>, passed: nat)

  /** The next block write.  The first line is the kernel at work, with the four phases of
      `commit` and its return; the second line is recovery. */
  datatype Phase =
    | Idle | Logging(t: nat) | Heading | Installing(t: nat) | Erasing | Closing
    | Down | Redoing(t: nat) | Clearing

  /** `disk` to `asleep`, the processes asleep in `begin_op`, are the system, and so is how far
      each active operation is in `log_write`; the rest is history that no step looks at: the
      operations, the writes of the running transaction and of the whole run, the groups
      committed so far, what they made durable, and that with the running transaction on top. */
  datatype State = State(
    disk: Disk, pinned: map<int, Block>, lh: seq<int>, outstanding: int, committing: bool, phase: Phase,
    asleep: set<nat>, active: seq<ActiveOp>, ended: set<nat>, nextOp: nat, txn: seq<Entry>, all: seq<Entry>,
    groups: seq<Group>, durable: Disk, current: Disk)

  datatype Config = Config(g: Geometry, init: Disk)

  datatype Step =
    | BeginOp                              // of an operation that is admitted
    | Sleep(p: nat)                        // begin_op by a process that is not
    | TestList(i: nat)                     // log_write by the i-th active operation: its first test
    | TestArea(i: nat)                     // its other tests
    | Append(i: nat, b: int, data: Block)  // its critical section
    | EndOp(i: nat)
    | Advance                              // one block write of commit or of recovery
    | Close                                // the last critical section of end_op
    | Crash
    | Boot                                 // read_head

  predicate Up(p: Phase) {
    !p.Down? && !p.Redoing? && !p.Clearing?
  }

  predicate InCommit(p: Phase) {
    p.Logging? || p.Heading? || p.Installing? || p.Erasing? || p.Closing?
  }

  // ---------------------------------------------------------------- steps

  /** The step can be taken.  Besides the code's own tests, a client logs only home blocks, and
      at most MAXOPBLOCKS of them in one operation. */
  ghost predicate Enabled(c: Config, s: State, step: Step) {
    match step
    case BeginOp => Up(s.phase) && Admits(|s.lh|, s.outstanding, s.committing)
    case Sleep(p) => Up(s.phase) && p !in s.asleep && !Admits(|s.lh|, s.outstanding, s.committing)
    case TestList(i) => i < |s.active| && s.active[i].passed == 0 && |s.lh| < LOGSIZE
    case TestArea(i) =>
      i < |s.active| && s.active[i].passed == 1 && |s.lh| < c.g.size - 1 && s.outstanding >= 1
    case Append(i, b, _) =>
      && i < |s.active| && s.active[i].passed == 2 && Home(c.g, |s.disk|, b)
      && |s.active[i].blocks + {b}| <= MAXOPBLOCKS
    case EndOp(i) => i < |s.active| && s.active[i].passed == 0
    case Advance => s.phase != Idle && s.phase != Closing && s.phase != Down && WriteReady(c, s)
    case Close => s.phase == Closing
    case Crash => true
    case Boot => s.phase == Down && Fits(c.g, s.disk) && 0 <= s.disk[c.g.start][0] <= LOGSIZE
  }

  /** The blocks of the next write exist, as the disk driver demands; they may lie outside the
      log area. */
  ghost predicate WriteReady(c: Config, s: State) {
    && Fits(c.g, s.disk) && |s.lh| <= LOGSIZE
    && (s.phase.Logging? || s.phase.Installing? || s.phase.Redoing? ==>
          s.phase.t < |s.lh| && 0 <= s.lh[s.phase.t] < |s.disk| && c.g.start + 1 + s.phase.t < |s.disk|)
  }

  /** The block write that `commit` or recovery issues next. */
  function NextWrite(c: Config, s: State): (w: Write)
    requires s.phase != Idle && s.phase != Closing && s.phase != Down && WriteReady(c, s)
    ensures 0 <= w.addr < |s.disk|
  {
    if s.phase.Logging? then Write(c.g.start + 1 + s.phase.t, View(s.pinned, s.disk, s.lh[s.phase.t]))
    else if s.phase.Heading? then Write(c.g.start, Encode(s.disk[c.g.start], s.lh))
    else if s.phase.Installing? || s.phase.Redoing? then Write(s.lh[s.phase.t], s.disk[c.g.start + 1 + s.phase.t])
    else Write(c.g.start, Encode(s.disk[c.g.start], []))
  }

  function NextPhase(s: State): (p: Phase) {
    match s.phase
    case Logging(t) => if t + 1 < |s.lh| then Logging(t + 1) else Heading
    case Heading => Installing(0)
    case Installing(t) => if t + 1 < |s.lh| then Installing(t + 1) else Erasing
    case Erasing => Closing
    case Redoing(t) => if t + 1 < |s.lh| then Redoing(t + 1) else Clearing
    case Clearing => Idle
    case p => p
  }

  function AfterTest(s: State, i: nat): (r: State)
    requires i < |s.active|
  {
    s.(active := s.active[i := s.active[i].(passed := s.active[i].passed + 1)])
  }

  function AfterAppend(s: State, i: nat, b: int, data: Block): (r: State)
    requires i < |s.active|
  {
    var o := s.active[i];
    s.(lh := Absorb(s.lh, b), pinned := s.pinned[b := data],
       active := s.active[i := o.(blocks := o.blocks + {b}, passed := 0)],
       txn := s.txn + [Entry(o.id, b, data)], all := s.all + [Entry(o.id, b, data)],
       current := if 0 <= b < |s.current| then s.current[b := data] else s.current)
  }

  function AfterEndOp(s: State, i: nat): (r: State)
    requires i < |s.active|
  {
    var last := s.outstanding == 1 && !s.committing;
    s.(outstanding := s.outstanding - 1,
       committing := s.committing || last, asleep := if s.outstanding == 1 then s.asleep else {},
       phase := if !last then s.phase else if |s.lh| > 0 then Logging(0) else Closing,
       active := s.active[..i] + s.active[i + 1..], ended := s.ended + {s.active[i].id})
  }

  function AfterWrite(s: State, w: Write): (r: State)
    requires 0 <= w.addr < |s.disk|
  {
    var r := s.(disk := s.disk[w.addr := w.data], pinned := s.pinned - {w.addr}, phase := NextPhase(s));
    if s.phase.Heading? then
      r.(groups := s.groups + [Group(s.ended, s.txn)], txn := [], ended := {}, durable := s.current)
    else if s.phase.Erasing? || s.phase.Clearing? then r.(lh := [])
    else r
  }

  function AfterCrash(s: State): (r: State) {
    s.(pinned := map[], lh := [], outstanding := 0, committing := false, phase := Down,
       asleep := {}, active := [], ended := {}, txn := [], current := s.durable)
  }

  /** Take one step. */
  function Next(c: Config, s: State, step: Step): (r: State)
    requires Enabled(c, s, step)
  {
    match step
    case BeginOp =>
      s.(outstanding := s.outstanding + 1,
         active := s.active + [ActiveOp(s.nextOp, {}, 0)], nextOp := s.nextOp + 1)
    case Sleep(p) => s.(asleep := s.asleep + {p})
    case TestList(i) => AfterTest(s, i)
    case TestArea(i) => AfterTest(s, i)
    case Append(i, b, data) => AfterAppend(s, i, b, data)
    case EndOp(i) => AfterEndOp(s, i)
    case Advance => AfterWrite(s, NextWrite(c, s))
    case Close => s.(committing := false, phase := Idle, asleep := {}, ended := {})
    case Crash => AfterCrash(s)
    case Boot =>
      var lh := Decode(s.disk[c.g.start]);
      s.(lh := lh, phase := if |lh| > 0 then Redoing(0) else Clearing)
  }

  /** Power-on with any disk whose log can be read. */
  ghost predicate Init(c: Config, s: State) {
    && Readable(c.g, c.init)
    && s == State(c.init, map[], [], 0, false, Down, {}, [], {}, 0, [], [], [],
                  Recovered(c.g, c.init), Recovered(c.g, c.init))
  }

  /** A run: `states[k + 1]` follows from `states[k]` by `steps[k]`. */
  ghost predicate IsRun(c: Config, states: seq<State>, steps: seq<Step>) {
    && |states| == |steps| + 1 && Init(c, states[0])
    && forall k {:trigger steps[k]} :: 0 <= k < |steps| ==>
                     Enabled(c, states[k], steps[k]) && states[k + 1] == Next(c, states[k], steps[k])
  }

  // ---------------------------------------------------------------- what the log promises

  /** The disk with the given writes put straight into it. */
  function Put(d: Disk, es: seq<Entry>): (r: Disk)
    ensures |r| == |d|
  {
    if es == [] then d
    else
      var e := es[|es| - 1];
      var r := Put(d, es[..|es| - 1]);
      if 0 <= e.block < |d| then r[e.block := e.data] else r
  }

  lemma PutSnoc(d: Disk, es: seq<Entry>, e: Entry)
    requires 0 <= e.block < |d|
    ensures Put(d, es + [e]) == Put(d, es)[e.block := e.data]
  {
    assert (es + [e])[..|es + [e]| - 1] == es;
  }

  /** What the committed groups make of the disk the system was started with. */
  ghost function Content(c: Config, groups: seq<Group>): (r: Disk)
    requires Readable(c.g, c.init)
    ensures |r| == |c.init|
  {
    if groups == [] then Recovered(c.g, c.init)
    else Put(Content(c, groups[..|groups| - 1]), groups[|groups| - 1].entries)
  }

  lemma ContentSnoc(c: Config, groups: seq<Group>, e: Group)
    requires Readable(c.g, c.init)
    ensures Content(c, groups + [e]) == Put(Content(c, groups), e.entries)
  {
    assert (groups + [e])[..|groups + [e]| - 1] == groups;
  }

  // ---------------------------------------------------------------- the disk invariant

  /** Recovery from disk `d` ends in the homes of `e`: the header is readable, listed blocks
      have their contents in the log, and the others already have them. */
  ghost predicate Recovers(g: Geometry, d: Disk, e: Disk) {
    && Readable(g, d) && |e| == |d|
    && (forall b :: Home(g, |d|, b) && b !in Decode(d[g.start]) ==> d[b] == e[b])
    && forall i :: 0 <= i < d[g.start][0] ==> d[g.start + 1 + i] == e[Decode(d[g.start])[i]]
  }

  lemma RecoversMeans(g: Geometry, d: Disk, e: Disk)
    requires Readable(g, d)
    ensures Recovers(g, d, e) <==> SameHome(g, Recovered(g, d), e)
  {
    var lh := Decode(d[g.start]);
    forall b | Home(g, |d|, b)
      ensures b !in lh ==> Recovered(g, d)[b] == d[b]
      ensures forall i :: 0 <= i < |lh| && lh[i] == b ==> Recovered(g, d)[b] == d[g.start + 1 + i]
    {
      RecoveredAt(g, d, b);
    }
    assert forall i :: 0 <= i < |lh| ==> Home(g, |d|, lh[i]);
  }

  /** Readers see the running transaction on top of the committed contents. */
  ghost predicate ReadsCurrent(g: Geometry, s: State) {
    |s.current| == |s.disk| &&
    forall b :: Home(g, |s.disk|, b) ==> View(s.pinned, s.disk, b) == s.current[b]
  }

  /** The header lists `lh`, and its first `t` blocks are already in their homes. */
  ghost predicate InstalledUpTo(g: Geometry, d: Disk, lh: seq<int>, t: nat) {
    && Readable(g, d) && Decode(d[g.start]) == lh && t <= |lh|
    && forall i :: 0 <= i < t ==> d[lh[i]] == d[g.start + 1 + i]
  }

  /** The new contents of the first `t` blocks of `lh` are already in the log. */
  ghost predicate LoggedUpTo(g: Geometry, s: State, t: nat) {
    && Fits(g, s.disk) && t <= |s.lh| < g.size && |s.current| == |s.disk|
    && forall i :: 0 <= i < t ==> 0 <= s.lh[i] < |s.disk| && s.disk[g.start + 1 + i] == s.current[s.lh[i]]
  }

  /** The pinned buffers are those of the list from position `t` on. */
  ghost predicate Pins(s: State, t: nat)
    requires t <= |s.lh|
  {
    forall b :: b in s.pinned <==> b in s.lh[t..]
  }

  ghost predicate PhaseInv(g: Geometry, s: State)
    requires Readable(g, s.disk)
  {
    var empty := Decode(s.disk[g.start]) == [];
    match s.phase
    case Idle => empty && Pins(s, 0)
    case Logging(t) => empty && Pins(s, 0) && t < |s.lh| && LoggedUpTo(g, s, t)
    case Heading => empty && Pins(s, 0) && 0 < |s.lh| && LoggedUpTo(g, s, |s.lh|)
    case Installing(t) => t < |s.lh| && InstalledUpTo(g, s.disk, s.lh, t) && Pins(s, t)
    case Erasing => InstalledUpTo(g, s.disk, s.lh, |s.lh|) && s.pinned == map[]
    case Closing => empty && s.lh == [] && s.pinned == map[]
    case Down => s.lh == [] && s.pinned == map[]
    case Redoing(t) => t < |s.lh| && InstalledUpTo(g, s.disk, s.lh, t) && s.pinned == map[]
    case Clearing => InstalledUpTo(g, s.disk, s.lh, |s.lh|) && s.pinned == map[]
  }

  ghost predicate DiskInv(g: Geometry, s: State) {
    && Recovers(g, s.disk, s.durable)
    && Loggable(g, |s.disk|, s.lh)
    && PhaseInv(g, s)
    && (if Up(s.phase) then ReadsCurrent(g, s) else s.current == s.durable)
    && (s.phase.Installing? || s.phase.Erasing? ==> s.current == s.durable)
  }

  /** How the counters of log.c relate to the operations and to the phase. */
  ghost predicate CountInv(s: State) {
    && s.outstanding == |s.active|
    && (s.committing <==> InCommit(s.phase))
    && (s.phase != Idle ==> s.active == [])
  }

  /** No operation sleeps in `begin_op` that could be admitted. */
  ghost predicate NoneForgotten(s: State) {
    && (s.asleep != {} ==> !Admits(|s.lh|, s.outstanding, s.committing))
    && (!Up(s.phase) ==> s.asleep == {})
  }

  lemma NoneForgottenStep(c: Config, s: State, step: Step)
    requires CountInv(s) && NoneForgotten(s) && Enabled(c, s, step)
    ensures NoneForgotten(Next(c, s, step))
  {
  }

  lemma CountStep(c: Config, s: State, step: Step)
    requires CountInv(s) && Enabled(c, s, step)
    ensures CountInv(Next(c, s, step))
  {
  }

  lemma InitInv(c: Config, s: State)
    requires Init(c, s)
    ensures DiskInv(c.g, s) && CountInv(s)
  {
    RecoversMeans(c.g, c.init, Recovered(c.g, c.init));
  }

  lemma AppendKeepsDiskInv(g: Geometry, s: State, i: nat, b: int, data: Block)
    requires DiskInv(g, s) && s.phase == Idle && i < |s.active| && Home(g, |s.disk|, b)
    requires b in s.lh || (|s.lh| < LOGSIZE && |s.lh| + 1 < g.size)
    ensures DiskInv(g, AfterAppend(s, i, b, data))
  {
    var r := AfterAppend(s, i, b, data);
    assert s.lh[0..] == s.lh && r.lh[0..] == r.lh;
  }

  lemma PinnedAreHome(g: Geometry, s: State, t: nat)
    requires Loggable(g, |s.disk|, s.lh) && t <= |s.lh| && Pins(s, t)
    ensures forall b :: b in s.pinned ==> Home(g, |s.disk|, b)
  {
    forall b | b in s.pinned
      ensures Home(g, |s.disk|, b)
    {
      assert b in s.lh[t..];
    }
  }

  lemma LoggedOneMore(g: Geometry, s: State, r: State)
    requires DiskInv(g, s) && s.phase.Logging? && 0 <= s.lh[s.phase.t] < |s.disk|
    requires r.lh == s.lh && r.current == s.current
    requires r.disk == s.disk[g.start + 1 + s.phase.t := View(s.pinned, s.disk, s.lh[s.phase.t])]
    ensures LoggedUpTo(g, r, s.phase.t + 1)
  {
    var t := s.phase.t;
    forall i | 0 <= i < t + 1
      ensures 0 <= r.lh[i] < |r.disk| && r.disk[g.start + 1 + i] == r.current[r.lh[i]]
    {
      assert Home(g, |s.disk|, s.lh[t]) && Home(g, |s.disk|, s.lh[i]);
    }
  }

  lemma LoggingKeepsDiskInv(g: Geometry, s: State, w: Write)
    requires DiskInv(g, s) && s.phase.Logging? && 0 <= s.lh[s.phase.t] < |s.disk|
    requires w == Write(g.start + 1 + s.phase.t, View(s.pinned, s.disk, s.lh[s.phase.t]))
    ensures DiskInv(g, AfterWrite(s, w))
  {
    var r := AfterWrite(s, w);
    assert r.pinned == s.pinned by { PinnedAreHome(g, s, 0); }
    assert LoggedUpTo(g, r, s.phase.t + 1) by { LoggedOneMore(g, s, r); }
    assert Recovers(g, r.disk, r.durable);
    assert ReadsCurrent(g, r) by {
      assert SameHome(g, r.disk, s.disk);
    }
  }

  /** The commit point: one block write makes the running transaction durable. */
  lemma HeadingKeepsDiskInv(g: Geometry, s: State, w: Write)
    requires DiskInv(g, s) && s.phase.Heading?
    requires w == Write(g.start, Encode(s.disk[g.start], s.lh))
    ensures DiskInv(g, AfterWrite(s, w))
  {
    var r := AfterWrite(s, w);
    assert s.lh[0..] == s.lh;
    assert Decode(r.disk[g.start]) == s.lh;
    assert r.pinned == s.pinned by {
      assert forall b :: b in s.pinned ==> Home(g, |s.disk|, b);
    }
    assert Recovers(g, r.disk, s.current) by {
      assert forall b :: Home(g, |s.disk|, b) ==> View(s.pinned, s.disk, b) == s.current[b];
    }
  }

  /** Copying one logged block to its home changes neither the log nor what it recovers to. */
  lemma InstallOne(g: Geometry, d: Disk, lh: seq<int>, t: nat, e: Disk)
    requires Recovers(g, d, e) && InstalledUpTo(g, d, lh, t) && t < |lh|
    requires Loggable(g, |d|, lh)
    ensures Home(g, |d|, lh[t])
    ensures Recovers(g, d[lh[t] := d[g.start + 1 + t]], e)
    ensures InstalledUpTo(g, d[lh[t] := d[g.start + 1 + t]], lh, t + 1)
    ensures d[g.start + 1 + t] == e[lh[t]]
  {
    assert forall i :: 0 <= i < |lh| ==> Home(g, |d|, lh[i]);
  }

  /** With every listed block installed, the homes hold what recovery would put there. */
  lemma AllInstalled(g: Geometry, d: Disk, lh: seq<int>, e: Disk)
    requires Recovers(g, d, e) && InstalledUpTo(g, d, lh, |lh|)
    ensures SameHome(g, d, e)
  {
    forall b | Home(g, |d|, b)
      ensures d[b] == e[b]
    {
      if i :| 0 <= i < |lh| && lh[i] == b {
        assert d[lh[i]] == d[g.start + 1 + i];
      }
    }
  }

  lemma InstallingKeepsDiskInv(g: Geometry, s: State, w: Write)
    requires DiskInv(g, s) && (s.phase.Installing? || s.phase.Redoing?)
    requires w == Write(s.lh[s.phase.t], s.disk[g.start + 1 + s.phase.t]) && 0 <= w.addr < |s.disk|
    ensures DiskInv(g, AfterWrite(s, w))
  {
    hide Recovers, InstalledUpTo, ReadsCurrent;
    var r := AfterWrite(s, w);
    InstallOne(g, s.disk, s.lh, s.phase.t, s.durable);
    RecoversReadable(g, r.disk, s.durable);
    if s.phase.Installing? {
      InstalledUnpins(s, r, s.phase.t);
      InstallKeepsReads(g, s, r, w);
    }
  }

  lemma RecoversReadable(g: Geometry, d: Disk, e: Disk)
    requires Recovers(g, d, e)
    ensures Readable(g, d)
  {
  }

  /** Readers see the same whether a block is pinned or installed. */
  lemma InstallKeepsReads(g: Geometry, s: State, r: State, w: Write)
    requires ReadsCurrent(g, s) && 0 <= w.addr < |s.disk| && r.disk == s.disk[w.addr := w.data]
    requires r.pinned == s.pinned - {w.addr} && r.current == s.current && w.data == s.current[w.addr]
    ensures ReadsCurrent(g, r)
  {
  }

  lemma InstalledUnpins(s: State, r: State, t: nat)
    requires t < |s.lh| && Distinct(s.lh) && Pins(s, t) && r.lh == s.lh && r.pinned == s.pinned - {s.lh[t]}
    ensures Pins(r, t + 1)
    ensures t + 1 == |s.lh| ==> r.pinned == map[]
  {
    assert s.lh[t..] == [s.lh[t]] + s.lh[t + 1..];
    if t + 1 == |s.lh| {
      assert s.lh[t + 1..] == [];
      assert forall b :: b !in r.pinned;
    }
  }

  /** The header is erased only after every home block is in place. */
  lemma ErasingKeepsDiskInv(g: Geometry, s: State, w: Write)
    requires DiskInv(g, s) && (s.phase.Erasing? || s.phase.Clearing?)
    requires w == Write(g.start, Encode(s.disk[g.start], []))
    ensures DiskInv(g, AfterWrite(s, w))
  {
    var r := AfterWrite(s, w);
    AllInstalled(g, s.disk, s.lh, s.durable);
    assert Decode(r.disk[g.start]) == [];
  }

  lemma EndOpKeepsDiskInv(g: Geometry, s: State, i: nat)
    requires DiskInv(g, s) && s.phase == Idle && i < |s.active|
    ensures DiskInv(g, AfterEndOp(s, i))
  {
    if s.lh == [] {
      assert s.pinned == map[] by {
        assert forall b :: b !in s.pinned;
      }
    }
  }

  lemma CrashKeepsDiskInv(g: Geometry, s: State)
    requires DiskInv(g, s)
    ensures DiskInv(g, AfterCrash(s))
  {
  }

  lemma BootKeepsDiskInv(c: Config, s: State)
    requires DiskInv(c.g, s) && Enabled(c, s, Boot)
    ensures DiskInv(c.g, Next(c, s, Boot))
  {
  }

  lemma AdvanceKeepsDiskInv(c: Config, s: State)
    requires DiskInv(c.g, s) && Enabled(c, s, Advance)
    ensures DiskInv(c.g, Next(c, s, Advance))
  {
    hide DiskInv, AfterWrite, Encode, View;
    var w := NextWrite(c, s);
    match s.phase {
      case Logging(_) => LoggingKeepsDiskInv(c.g, s, w);
      case Heading => HeadingKeepsDiskInv(c.g, s, w);
      case Installing(_) => InstallingKeepsDiskInv(c.g, s, w);
      case Redoing(_) => InstallingKeepsDiskInv(c.g, s, w);
      case Erasing => ErasingKeepsDiskInv(c.g, s, w);
      case Clearing => ErasingKeepsDiskInv(c.g, s, w);
    }
  }

  /** A step that changes nothing the disk invariant looks at. */
  lemma SameDiskInv(g: Geometry, s: State, r: State)
    requires DiskInv(g, s)
    requires r.disk == s.disk && r.pinned == s.pinned && r.lh == s.lh && r.phase == s.phase
    requires r.durable == s.durable && r.current == s.current
    ensures DiskInv(g, r)
  {
  }

  lemma CloseKeepsDiskInv(c: Config, s: State)
    requires DiskInv(c.g, s) && Enabled(c, s, Close)
    ensures DiskInv(c.g, Next(c, s, Close))
  {
  }

  /** Every step of every kind keeps the disk recoverable, if an append finds room. */
  lemma DiskStep(c: Config, s: State, step: Step)
    requires DiskInv(c.g, s) && CountInv(s) && Enabled(c, s, step)
    requires step.Append? ==> step.b in s.lh || (|s.lh| < LOGSIZE && |s.lh| + 1 < c.g.size)
    ensures DiskInv(c.g, Next(c, s, step))
  {
    hide DiskInv, AfterWrite, AfterAppend, AfterEndOp, AfterCrash, WriteReady;
    match step {
      case Append(i, b, data) => AppendKeepsDiskInv(c.g, s, i, b, data);
      case Boot => BootKeepsDiskInv(c, s);
      case Advance => AdvanceKeepsDiskInv(c, s);
      case EndOp(i) => EndOpKeepsDiskInv(c.g, s, i);
      case Close => CloseKeepsDiskInv(c, s);
      case Crash => CrashKeepsDiskInv(c.g, s);
      case _ => SameDiskInv(c.g, s, Next(c, s, step));
    }
  }
}
