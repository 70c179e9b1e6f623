/** What holds in every run of the logging system (LogRun): operations are atomic across
    crashes, groups hold whole operations, and the log has room for what was admitted. */
module LogTheorems {
  import opened LogDisk
  import opened LogCode
  import opened LogRun

  // ---------------------------------------------------------------- histories

  /** The writes made by one operation, in order. */
  function Of(es: seq<Entry>, o: nat): (r: seq<Entry>) {
    if es == [] then []
    else
      var e := es[|es| - 1];
      Of(es[..|es| - 1], o) + if e.op == o then [e] else []
  }

  lemma OfSnoc(es: seq<Entry>, e: Entry, o: nat)
    ensures Of(es + [e], o) == Of(es, o) + if e.op == o then [e] else []
  {
    assert (es + [e])[..|es + [e]| - 1] == es;
  }

  lemma {:induction false} OfNone(es: seq<Entry>, o: nat)
    requires forall e :: e in es ==> e.op != o
    ensures Of(es, o) == []
  {
    if es != [] {
      OfNone(es[..|es| - 1], o);
      assert es[|es| - 1] in es;
    }
  }

  /** The operation belongs to the running transaction. */
  ghost predicate Live(s: State, o: nat) {
    o in s.ended || exists a :: a in s.active && a.id == o
  }

  /** The contents that the history speaks of. */
  ghost predicate ContentInv(c: Config, s: State) {
    && Readable(c.g, c.init)
    && s.durable == Content(c, s.groups) && s.current == Put(s.durable, s.txn)
  }

  /** All writes of operation `o` in the whole run are those in `es`. */
  ghost predicate AllIn(s: State, es: seq<Entry>, o: nat) {
    o < s.nextOp && Of(es, o) == Of(s.all, o)
  }

  /** A committed group holds all writes of its operations, none of which is still running,
      and no write of any other. */
  ghost predicate WholeGroup(s: State, e: Group) {
    && (forall x :: x in e.entries ==> x.op in e.ops)
    && (forall o :: o in e.ops ==> AllIn(s, e.entries, o) && !Live(s, o))
  }

  /** Every group, and the running transaction, consists of whole operations. */
  ghost predicate WholeOps(s: State) {
    && (forall e :: e in s.txn ==> Live(s, e.op))
    && (forall o: nat :: Live(s, o) ==> AllIn(s, s.txn, o))
    && (forall e :: e in s.all ==> e.op < s.nextOp)
    && (forall k :: 0 <= k < |s.groups| ==> WholeGroup(s, s.groups[k]))
    && (forall k, l :: 0 <= k < l < |s.groups| ==> s.groups[k].ops !! s.groups[l].ops)
  }

  /** The transaction is on the list, and is empty once it has been committed. */
  ghost predicate TxnInv(s: State) {
    && (forall e :: e in s.txn ==> e.block in s.lh)
    && (!s.phase.Idle? && !s.phase.Logging? && !s.phase.Heading? ==> s.txn == [])
  }

  lemma AppendKeepsContent(c: Config, s: State, i: nat, b: int, data: Block)
    requires ContentInv(c, s) && i < |s.active| && |s.current| == |s.disk| && Home(c.g, |s.disk|, b)
    ensures ContentInv(c, AfterAppend(s, i, b, data))
  {
    hide Readable, Content;
    PutSnoc(s.durable, s.txn, Entry(s.active[i].id, b, data));
  }

  lemma WriteKeepsContent(c: Config, s: State, w: Write)
    requires ContentInv(c, s) && 0 <= w.addr < |s.disk|
    ensures ContentInv(c, AfterWrite(s, w))
  {
    hide Readable;
    ContentSnoc(c, s.groups, Group(s.ended, s.txn));
  }

  lemma SameContent(c: Config, s: State, r: State)
    requires ContentInv(c, s) && r.groups == s.groups && r.durable == s.durable
    requires (r.current == s.current && r.txn == s.txn) || (r.current == s.durable && r.txn == [])
    ensures ContentInv(c, r)
  {
  }

  lemma ReadsWholeDisk(c: Config, s: State, step: Step)
    requires DiskInv(c.g, s) && CountInv(s) && Enabled(c, s, step) && step.Append?
    ensures |s.current| == |s.disk|
  {
    hide Recovers, Loggable, PhaseInv;
  }

  lemma ContentStep(c: Config, s: State, step: Step)
    requires DiskInv(c.g, s) && CountInv(s) && ContentInv(c, s) && Enabled(c, s, step)
    ensures ContentInv(c, Next(c, s, step))
  {
    hide DiskInv, ContentInv, AfterWrite, AfterAppend;
    match step {
      case Append(i, b, data) => ReadsWholeDisk(c, s, step); AppendKeepsContent(c, s, i, b, data);
      case Advance => WriteKeepsContent(c, s, NextWrite(c, s));
      case _ => SameContent(c, s, Next(c, s, step));
    }
  }

  lemma TxnStep(c: Config, s: State, step: Step)
    requires CountInv(s) && TxnInv(s) && Enabled(c, s, step)
    ensures TxnInv(Next(c, s, step))
  {
    var r := Next(c, s, step);
    if step.EndOp? && s.lh == [] {
      HasMember(s.txn);
    }
  }

  lemma HasMember<T>(s: seq<T>)
    ensures s == [] || exists x :: x in s
  {
    if s != [] { assert s[0] in s; }
  }

  lemma BeginKeepsWhole(c: Config, s: State)
    requires WholeOps(s) && Enabled(c, s, BeginOp)
    ensures WholeOps(Next(c, s, BeginOp))
  {
    var r := Next(c, s, BeginOp);
    forall o: nat
      ensures Live(r, o) <==> Live(s, o) || o == s.nextOp
    {
      assert r.active[|s.active|] in r.active;
      if a :| a in s.active && a.id == o { assert a in r.active; }
      if a :| a in r.active && a.id == o { assert a in s.active || a == r.active[|s.active|]; }
    }
    assert !Live(s, s.nextOp) by { assert Live(s, s.nextOp) ==> AllIn(s, s.txn, s.nextOp); }
    assert AllIn(r, r.txn, s.nextOp) by {
      OfNone(s.txn, s.nextOp);
      OfNone(s.all, s.nextOp);
    }
    forall o: nat | Live(r, o)
      ensures AllIn(r, r.txn, o)
    {
      assert o == s.nextOp || AllIn(s, s.txn, o);
    }
    forall k | 0 <= k < |r.groups|
      ensures WholeGroup(r, r.groups[k])
    {
      assert WholeGroup(s, s.groups[k]);
      assert forall o :: o in s.groups[k].ops ==> AllIn(s, s.groups[k].entries, o);
    }
  }

  lemma AppendKeepsWhole(s: State, i: nat, b: int, data: Block)
    requires WholeOps(s) && i < |s.active|
    ensures WholeOps(AfterAppend(s, i, b, data))
  {
    var r := AfterAppend(s, i, b, data);
    var e := Entry(s.active[i].id, b, data);
    SameLive(s, r);
    assert Live(s, e.op) by { assert s.active[i] in s.active; }
    forall o: nat | Live(r, o)
      ensures AllIn(r, r.txn, o)
    {
      assert AllIn(s, s.txn, o);
      OfSnoc(s.txn, e, o);
      OfSnoc(s.all, e, o);
    }
    assert e.op < s.nextOp by { assert AllIn(s, s.txn, e.op); }
    forall k | 0 <= k < |r.groups|
      ensures WholeGroup(r, r.groups[k])
    {
      assert WholeGroup(s, s.groups[k]);
      forall o | o in r.groups[k].ops
        ensures AllIn(r, r.groups[k].entries, o) && !Live(r, o)
      {
        assert AllIn(s, s.groups[k].entries, o) && !Live(s, o);
        OfSnoc(s.all, e, o);
      }
    }
  }

  lemma SameLive(s: State, r: State)
    requires r.ended == s.ended && |r.active| == |s.active|
    requires forall j :: 0 <= j < |s.active| ==> r.active[j].id == s.active[j].id
    ensures forall o: nat :: Live(r, o) <==> Live(s, o)
  {
    forall o: nat
      ensures Live(r, o) <==> Live(s, o)
    {
      if a :| a in s.active && a.id == o {
        var j :| 0 <= j < |s.active| && s.active[j] == a;
        assert r.active[j] in r.active && r.active[j].id == o;
      }
      if a :| a in r.active && a.id == o {
        var j :| 0 <= j < |r.active| && r.active[j] == a;
        assert s.active[j] in s.active && s.active[j].id == o;
      }
    }
  }

  lemma EndOpSameLive(s: State, i: nat)
    requires i < |s.active|
    ensures forall o: nat :: Live(AfterEndOp(s, i), o) <==> Live(s, o)
  {
    var r := AfterEndOp(s, i);
    forall o: nat
      ensures Live(r, o) <==> Live(s, o)
    {
      assert s.active[i] in s.active;
      if a :| a in s.active && a.id == o {
        var j :| 0 <= j < |s.active| && s.active[j] == a;
        if j < i { assert r.active[j] == a; } else if j > i { assert r.active[j - 1] == a; }
      }
      if a :| a in r.active && a.id == o { assert a in s.active; }
    }
  }

  /** Groups stay whole while no operation of theirs comes back to life. */
  lemma GroupsStayWhole(s: State, r: State)
    requires WholeOps(s) && r.all == s.all && r.nextOp == s.nextOp
    requires forall o: nat :: Live(r, o) ==> Live(s, o)
    ensures forall k :: 0 <= k < |s.groups| ==> WholeGroup(r, s.groups[k])
  {
    forall k | 0 <= k < |s.groups|
      ensures WholeGroup(r, s.groups[k])
    {
      assert WholeGroup(s, s.groups[k]);
      forall o | o in s.groups[k].ops
        ensures AllIn(r, s.groups[k].entries, o) && !Live(r, o)
      {
        assert AllIn(s, s.groups[k].entries, o) && !Live(s, o);
      }
    }
  }

  /** Steps that leave the history and the running operations alone. */
  lemma SameWhole(s: State, r: State)
    requires WholeOps(s)
    requires r.txn == s.txn && r.all == s.all && r.groups == s.groups && r.nextOp == s.nextOp
    requires forall o: nat :: Live(r, o) <==> Live(s, o)
    ensures WholeOps(r)
  {
    GroupsStayWhole(s, r);
    forall o: nat | Live(r, o)
      ensures AllIn(r, r.txn, o)
    {
      assert AllIn(s, s.txn, o);
    }
  }

  /** Steps that end a transaction without committing anything. */
  lemma DropWhole(s: State, r: State)
    requires WholeOps(s)
    requires r.txn == [] && r.all == s.all && r.groups == s.groups && r.nextOp == s.nextOp
    requires r.ended == {} && r.active == []
    ensures WholeOps(r)
  {
    assert forall o: nat :: !Live(r, o);
    GroupsStayWhole(s, r);
  }

  /** The commit point: with no operation active, the transaction is a group of whole ones. */
  lemma CommitWhole(s: State, r: State)
    requires WholeOps(s) && s.active == []
    requires r.txn == [] && r.all == s.all && r.groups == s.groups + [Group(s.ended, s.txn)] && r.nextOp == s.nextOp
    requires r.ended == {} && r.active == []
    ensures WholeOps(r)
  {
    var e := Group(s.ended, s.txn);
    assert forall o: nat :: !Live(r, o);
    GroupsStayWhole(s, r);
    assert WholeGroup(r, e) by {
      forall o | o in e.ops
        ensures AllIn(r, e.entries, o)
      {
        assert Live(s, o) && AllIn(s, s.txn, o);
      }
    }
    forall k | 0 <= k < |s.groups|
      ensures s.groups[k].ops !! e.ops
    {
      assert WholeGroup(s, s.groups[k]);
      assert forall o :: o in e.ops ==> Live(s, o);
    }
  }

  lemma WholeStep(c: Config, s: State, step: Step)
    requires CountInv(s) && TxnInv(s) && WholeOps(s) && Enabled(c, s, step)
    ensures WholeOps(Next(c, s, step))
  {
    hide WholeOps;
    var r := Next(c, s, step);
    match step {
      case BeginOp => BeginKeepsWhole(c, s);
      case Sleep(_) => SameWhole(s, r);
      case TestList(_) => SameLive(s, r); SameWhole(s, r);
      case TestArea(_) => SameLive(s, r); SameWhole(s, r);
      case Append(i, b, data) => AppendKeepsWhole(s, i, b, data);
      case EndOp(i) => EndOpSameLive(s, i); SameWhole(s, r);
      case Advance => if s.phase.Heading? { CommitWhole(s, r); } else { SameWhole(s, r); }
      case Close => DropWhole(s, r);
      case Crash => DropWhole(s, r);
      case Boot => SameWhole(s, r);
    }
  }

  // ---------------------------------------------------------------- log space

  /** Blocks that the active operations may still log. */
  function Reserve(ops: seq<ActiveOp>): (n: int) {
    if ops == [] then 0 else Reserve(ops[..|ops| - 1]) + MAXOPBLOCKS - |ops[|ops| - 1].blocks|
  }

  lemma {:induction false} ReserveConcat(xs: seq<ActiveOp>, ys: seq<ActiveOp>)
    ensures Reserve(xs + ys) == Reserve(xs) + Reserve(ys)
  {
    if ys == [] {
      assert xs + ys == xs;
    } else {
      assert (xs + ys)[..|xs + ys| - 1] == xs + ys[..|ys| - 1];
      ReserveConcat(xs, ys[..|ys| - 1]);
    }
  }

  lemma ReserveOne(a: ActiveOp)
    ensures Reserve([a]) == MAXOPBLOCKS - |a.blocks|
  {
  }

  lemma ReserveSplit(ops: seq<ActiveOp>, i: nat)
    requires i < |ops|
    ensures Reserve(ops) == Reserve(ops[..i]) + MAXOPBLOCKS - |ops[i].blocks| + Reserve(ops[i + 1..])
  {
    ReserveConcat(ops[..i], [ops[i]]);
    ReserveConcat(ops[..i] + [ops[i]], ops[i + 1..]);
    assert ops == ops[..i] + [ops[i]] + ops[i + 1..];
  }

  lemma {:induction false} ReserveBounds(ops: seq<ActiveOp>)
    requires forall a :: a in ops ==> |a.blocks| <= MAXOPBLOCKS
    ensures 0 <= Reserve(ops) <= MAXOPBLOCKS * |ops|
  {
    if ops != [] {
      assert ops[|ops| - 1] in ops;
      ReserveBounds(ops[..|ops| - 1]);
    }
  }

  /** Listed blocks and reserved blocks together fit the log. */
  ghost predicate SpaceInv(s: State) {
    && (forall a :: a in s.active ==> |a.blocks| <= MAXOPBLOCKS && forall b :: b in a.blocks ==> b in s.lh)
    && |s.lh| + Reserve(s.active) <= LOGSIZE
  }

  lemma TestKeepsSpace(s: State, i: nat)
    requires SpaceInv(s) && i < |s.active|
    ensures SpaceInv(AfterTest(s, i))
  {
    var r := AfterTest(s, i);
    ReserveSplit(s.active, i);
    ReserveSplit(r.active, i);
    assert r.active[..i] == s.active[..i] && r.active[i + 1..] == s.active[i + 1..];
    assert s.active[i] in s.active;
  }

  lemma AppendKeepsSpace(s: State, i: nat, b: int, data: Block)
    requires SpaceInv(s) && i < |s.active| && |s.active[i].blocks + {b}| <= MAXOPBLOCKS
    ensures SpaceInv(AfterAppend(s, i, b, data))
  {
    var r := AfterAppend(s, i, b, data);
    var o := s.active[i];
    assert o in s.active;
    ReserveSplit(s.active, i);
    ReserveSplit(r.active, i);
    assert r.active[..i] == s.active[..i] && r.active[i + 1..] == s.active[i + 1..];
    assert b !in s.lh ==> |o.blocks + {b}| == |o.blocks| + 1;
    assert |o.blocks| <= |o.blocks + {b}| by { assert b in o.blocks ==> o.blocks + {b} == o.blocks; }
  }

  lemma BeginKeepsSpace(c: Config, s: State)
    requires CountInv(s) && SpaceInv(s) && Enabled(c, s, BeginOp)
    ensures SpaceInv(Next(c, s, BeginOp))
  {
    hide Reserve;
    ReserveConcat(s.active, [ActiveOp(s.nextOp, {}, 0)]);
    ReserveOne(ActiveOp(s.nextOp, {}, 0));
    ReserveBounds(s.active);
  }

  lemma EndOpKeepsSpace(s: State, i: nat)
    requires SpaceInv(s) && i < |s.active|
    ensures SpaceInv(AfterEndOp(s, i))
  {
    ReserveSplit(s.active, i);
    ReserveConcat(s.active[..i], s.active[i + 1..]);
    assert s.active[i] in s.active;
  }

  /** Steps that neither lengthen the list nor touch an operation, or that start afresh. */
  lemma SameSpace(s: State, r: State)
    requires SpaceInv(s)
    requires (r.active == s.active && r.lh == s.lh) || (r.active == [] && |r.lh| <= LOGSIZE)
    ensures SpaceInv(r)
  {
  }

  lemma SpaceStep(c: Config, s: State, step: Step)
    requires CountInv(s) && SpaceInv(s) && Enabled(c, s, step)
    ensures SpaceInv(Next(c, s, step))
  {
    hide SpaceInv, WriteReady;
    match step {
      case BeginOp => BeginKeepsSpace(c, s);
      case TestList(i) => TestKeepsSpace(s, i);
      case TestArea(i) => TestKeepsSpace(s, i);
      case Append(i, b, data) => AppendKeepsSpace(s, i, b, data);
      case EndOp(i) => EndOpKeepsSpace(s, i);
      case _ => SameSpace(s, Next(c, s, step));
    }
  }

  /** What the reservation of `begin_op` leaves for an append within budget. */
  lemma RoomToAppend(s: State, i: nat, b: int)
    requires SpaceInv(s) && i < |s.active| && |s.active[i].blocks + {b}| <= MAXOPBLOCKS
    ensures b !in s.lh ==> |s.lh| < LOGSIZE
    ensures |s.lh| <= LOGSIZE
    ensures |s.lh| == LOGSIZE ==> |s.active[i].blocks| == MAXOPBLOCKS && b in s.active[i].blocks && b in s.lh
  {
    var o := s.active[i];
    assert o in s.active;
    ReserveSplit(s.active, i);
    assert forall a :: a in s.active[..i] || a in s.active[i + 1..] ==> a in s.active;
    ReserveBounds(s.active[..i]);
    ReserveBounds(s.active[i + 1..]);
    assert b !in o.blocks ==> |o.blocks + {b}| == |o.blocks| + 1;
  }

  /** Sizes of the log area for which the log is safe: larger than the in-memory header, or so
      small that the size test stops every write. */
  predicate SafeSize(g: Geometry) {
    g.size > LOGSIZE || g.size == 1
  }

  /** With a log area of one block, no operation gets past the second test. */
  ghost predicate StageInv(g: Geometry, s: State) {
    g.size == 1 ==> forall a :: a in s.active ==> a.passed != 2
  }

  lemma StageStep(c: Config, s: State, step: Step)
    requires StageInv(c.g, s) && Enabled(c, s, step)
    ensures StageInv(c.g, Next(c, s, step))
  {
    hide WriteReady;
  }

  // ---------------------------------------------------------------- whole runs

  /** What no size of the log area can break. */
  ghost predicate CoreInv(c: Config, s: State) {
    && CountInv(s) && NoneForgotten(s) && TxnInv(s) && WholeOps(s) && SpaceInv(s) && StageInv(c.g, s)
  }

  ghost predicate RunInv(c: Config, s: State) {
    CoreInv(c, s) && DiskInv(c.g, s) && ContentInv(c, s)
  }

  lemma CoreStep(c: Config, s: State, step: Step)
    requires CoreInv(c, s) && Enabled(c, s, step)
    ensures CoreInv(c, Next(c, s, step))
  {
    hide CountInv, NoneForgotten, TxnInv, WholeOps, SpaceInv, StageInv, Enabled, Next;
    CountStep(c, s, step);
    NoneForgottenStep(c, s, step);
    TxnStep(c, s, step);
    WholeStep(c, s, step);
    SpaceStep(c, s, step);
    StageStep(c, s, step);
  }

  /** In a log area of safe size, an append that was tested some time ago still finds room. */
  lemma AppendFindsRoom(c: Config, s: State, step: Step)
    requires SafeSize(c.g) && SpaceInv(s) && StageInv(c.g, s) && Enabled(c, s, step) && step.Append?
    ensures step.b in s.lh || (|s.lh| < LOGSIZE && |s.lh| + 1 < c.g.size)
  {
    RoomToAppend(s, step.i, step.b);
    assert s.active[step.i] in s.active;
  }

  /** Every step keeps the invariant, if an append finds room. */
  lemma RunStep(c: Config, s: State, step: Step)
    requires RunInv(c, s) && Enabled(c, s, step)
    requires step.Append? ==> step.b in s.lh || (|s.lh| < LOGSIZE && |s.lh| + 1 < c.g.size)
    ensures RunInv(c, Next(c, s, step))
  {
    hide CountInv, NoneForgotten, TxnInv, WholeOps, SpaceInv, StageInv, Enabled, Next, DiskInv, ContentInv;
    CoreStep(c, s, step);
    DiskStep(c, s, step);
    ContentStep(c, s, step);
  }

  lemma InitCore(c: Config, s: State)
    requires Init(c, s)
    ensures CoreInv(c, s)
  {
  }

  lemma {:induction false} CoreKeeps(c: Config, states: seq<State>, steps: seq<Step>, k: nat)
    requires IsRun(c, states, steps) && k <= |steps|
    ensures CoreInv(c, states[k])
  {
    hide CoreInv, Enabled, Next, Init;
    if k == 0 {
      InitCore(c, states[0]);
    } else {
      CoreKeeps(c, states, steps, k - 1);
      assert states[k] == Next(c, states[k - 1], steps[k - 1]);
      CoreStep(c, states[k - 1], steps[k - 1]);
    }
  }

  lemma InitRun(c: Config, s: State)
    requires Init(c, s)
    ensures RunInv(c, s)
  {
    InitCore(c, s);
    InitInv(c, s);
  }

  lemma {:induction false} RunKeeps(c: Config, states: seq<State>, steps: seq<Step>, k: nat)
    requires SafeSize(c.g) && IsRun(c, states, steps) && k <= |steps|
    ensures RunInv(c, states[k])
  {
    hide RunInv, Enabled, Next, Init, SafeSize;
    if k == 0 {
      InitRun(c, states[0]);
    } else {
      RunKeeps(c, states, steps, k - 1);
      var s, step := states[k - 1], steps[k - 1];
      assert states[k] == Next(c, s, step);
      RunParts(c, s);
      if step.Append? { AppendFindsRoom(c, s, step); }
      RunStep(c, s, step);
    }
  }

  lemma RunParts(c: Config, s: State)
    requires RunInv(c, s)
    ensures CountInv(s) && SpaceInv(s) && StageInv(c.g, s)
  {
  }

  // ---------------------------------------------------------------- one operation at a time

  /** Operations come one at a time. */
  ghost predicate Serial(states: seq<State>, steps: seq<Step>)
    requires |states| == |steps| + 1
  {
    forall k :: 0 <= k < |steps| && steps[k] == BeginOp ==> states[k].active == []
  }

  /** What the operation's own size test found still holds when it appends. */
  ghost predicate SerialInv(g: Geometry, s: State) {
    |s.active| <= 1 && forall a :: a in s.active && a.passed == 2 ==> |s.lh| < g.size - 1
  }

  lemma SerialStep(c: Config, s: State, step: Step)
    requires SerialInv(c.g, s) && CountInv(s) && Enabled(c, s, step) && (step == BeginOp ==> s.active == [])
    ensures SerialInv(c.g, Next(c, s, step))
  {
    hide WriteReady;
  }

  lemma SerialFindsRoom(c: Config, s: State, step: Step)
    requires SpaceInv(s) && SerialInv(c.g, s) && Enabled(c, s, step) && step.Append?
    ensures step.b in s.lh || (|s.lh| < LOGSIZE && |s.lh| + 1 < c.g.size)
  {
    RoomToAppend(s, step.i, step.b);
    assert s.active[step.i] in s.active;
  }

  /** With one operation at a time the invariant holds whatever the size of the log area. */
  lemma {:induction false} SerialKeeps(c: Config, states: seq<State>, steps: seq<Step>, k: nat)
    requires IsRun(c, states, steps) && Serial(states, steps) && k <= |steps|
    ensures RunInv(c, states[k]) && SerialInv(c.g, states[k])
  {
    hide RunInv, Enabled, Next;
    if k == 0 {
      InitRun(c, states[0]);
    } else {
      SerialKeeps(c, states, steps, k - 1);
      var s, step := states[k - 1], steps[k - 1];
      assert states[k] == Next(c, s, step);
      RunParts(c, s);
      if step.Append? { SerialFindsRoom(c, s, step); }
      RunStep(c, s, step);
      SerialStep(c, s, step);
    }
  }

  // ---------------------------------------------------------------- the theorems

  /** What a state that satisfies the invariant recovers to. */
  lemma RecoversDurable(c: Config, s: State, cuts: seq<nat>)
    requires RunInv(c, s)
    ensures Readable(c.g, s.disk) && SameHome(c.g, Recovered(c.g, s.disk), s.durable)
    ensures CanInterrupt(c.g, s.disk, cuts) ==>
              var e := Interrupted(c.g, s.disk, cuts);
              Readable(c.g, e) && SameHome(c.g, Recovered(c.g, e), s.durable)
  {
    hide CoreInv, ContentInv;
    RecoversMeans(c.g, s.disk, s.durable);
    if CanInterrupt(c.g, s.disk, cuts) {
      RecoveryIdempotent(c.g, s.disk, cuts);
    }
  }

  /** A crash at any point of any run, followed by any number of interrupted recoveries and
      one that completes, leaves exactly what the groups committed so far made of the disk. */
  lemma CrashRecoversGroups(c: Config, states: seq<State>, steps: seq<Step>, k: nat, cuts: seq<nat>)
    requires SafeSize(c.g) && IsRun(c, states, steps) && k <= |steps|
    ensures Readable(c.g, c.init) && Readable(c.g, states[k].disk)
    ensures SameHome(c.g, Recovered(c.g, states[k].disk), Content(c, states[k].groups))
    ensures CanInterrupt(c.g, states[k].disk, cuts) ==>
              var e := Interrupted(c.g, states[k].disk, cuts);
              Readable(c.g, e) && SameHome(c.g, Recovered(c.g, e), Content(c, states[k].groups))
  {
    hide DiskInv, CoreInv;
    RunKeeps(c, states, steps, k);
    RecoversDurable(c, states[k], cuts);
  }

  /** Committed groups are never lost: later states only add to them. */
  lemma {:induction false} GroupsOnlyGrow(c: Config, states: seq<State>, steps: seq<Step>, j: nat, k: nat)
    requires IsRun(c, states, steps) && j <= k <= |steps|
    ensures states[j].groups <= states[k].groups
    decreases k - j
  {
    if j < k {
      GroupsOnlyGrow(c, states, steps, j, k - 1);
      assert states[k] == Next(c, states[k - 1], steps[k - 1]);
      assert states[k - 1].groups <= states[k].groups;
    }
  }

  /** Groups hold whole operations: every write of an operation in a group is in that group,
      in order; the group has no other writes; the operation has ended, and is in no other
      group. */
  lemma GroupsHoldWholeOps(c: Config, states: seq<State>, steps: seq<Step>, k: nat, j: nat)
    requires IsRun(c, states, steps) && k <= |steps| && j < |states[k].groups|
    ensures var e := states[k].groups[j];
            && (forall x :: x in e.entries ==> x.op in e.ops)
            && (forall o :: o in e.ops ==>
                  && Of(e.entries, o) == Of(states[k].all, o)
                  && (forall a :: a in states[k].active ==> a.id != o)
                  && (forall i :: 0 <= i < |states[k].groups| && i != j ==> o !in states[k].groups[i].ops))
  {
    CoreKeeps(c, states, steps, k);
    var s := states[k];
    var e := s.groups[j];
    assert WholeGroup(s, e);
    forall o | o in e.ops
      ensures forall i :: 0 <= i < |s.groups| && i != j ==> o !in s.groups[i].ops
      ensures Of(e.entries, o) == Of(s.all, o)
    {
      assert AllIn(s, e.entries, o);
      forall i | 0 <= i < |s.groups| && i != j
        ensures o !in s.groups[i].ops
      {
        assert s.groups[i].ops !! s.groups[j].ops;
      }
    }
  }

  lemma HomeStep(c: Config, s: State, step: Step, b: int)
    requires DiskInv(c.g, s) && Enabled(c, s, step) && Home(c.g, |s.disk|, b)
    ensures var r := Next(c, s, step);
            && |r.disk| == |s.disk|
            && (r.disk[b] != s.disk[b] ==>
                  && step == Advance && (s.phase.Installing? || s.phase.Redoing?)
                  && s.phase.t < |s.lh| && s.lh[s.phase.t] == b && r.disk[b] == s.disk[c.g.start + 1 + s.phase.t])
  {
    hide Recovers, Encode, View;
    if step == Advance {
      var w := NextWrite(c, s);
      assert Next(c, s, step).disk == s.disk[w.addr := w.data];
    }
  }

  /** No home block changes on disk except when `install_trans` copies it out of the log. */
  lemma HomeChangesOnlyByInstall(c: Config, states: seq<State>, steps: seq<Step>, k: nat, b: int)
    requires SafeSize(c.g) && IsRun(c, states, steps) && k < |steps|
    requires Home(c.g, |states[k].disk|, b)
    ensures |states[k + 1].disk| == |states[k].disk|
    ensures states[k + 1].disk[b] != states[k].disk[b] ==>
              var s := states[k];
              && steps[k] == Advance && (s.phase.Installing? || s.phase.Redoing?)
              && s.phase.t < |s.lh| && s.lh[s.phase.t] == b
              && states[k + 1].disk[b] == s.disk[c.g.start + 1 + s.phase.t]
  {
    hide DiskInv, CoreInv, ContentInv, Enabled, Next, Init, SafeSize;
    RunKeeps(c, states, steps, k);
    assert states[k + 1] == Next(c, states[k], steps[k]);
    HomeStep(c, states[k], steps[k], b);
  }

  /** Readers never see less than the running transaction, nor more. */
  lemma ReadersSeeTransaction(c: Config, states: seq<State>, steps: seq<Step>, k: nat, b: int)
    requires SafeSize(c.g) && IsRun(c, states, steps) && k <= |steps| && Up(states[k].phase)
    requires Home(c.g, |states[k].disk|, b)
    ensures Readable(c.g, c.init) && |states[k].disk| == |c.init|
    ensures View(states[k].pinned, states[k].disk, b) ==
              Put(Content(c, states[k].groups), states[k].txn)[b]
  {
    RunKeeps(c, states, steps, k);
  }

  /** A commit runs with no operation outstanding, so `end_op` never finds one running. */
  lemma NoCommitPanic(c: Config, states: seq<State>, steps: seq<Step>, k: nat)
    requires IsRun(c, states, steps) && k <= |steps|
    ensures states[k].committing ==> states[k].outstanding == 0
    ensures forall i :: Enabled(c, states[k], EndOp(i)) ==> !states[k].committing && states[k].outstanding >= 1
  {
    CoreKeeps(c, states, steps, k);
  }

  /** No lost wakeup in `begin_op`: whenever the lock is free, nobody sleeps on the log unless a
      commit is running or there is no room to reserve; and if the kernel is up and neither is the
      case, an operation is admitted. */
  lemma NoSleeperForgotten(c: Config, states: seq<State>, steps: seq<Step>, k: nat)
    requires IsRun(c, states, steps) && k <= |steps|
    ensures states[k].asleep != {} ==>
              states[k].committing || |states[k].lh| + (states[k].outstanding + 1) * MAXOPBLOCKS > LOGSIZE
    ensures Up(states[k].phase) ==>
              (Enabled(c, states[k], BeginOp) <==>
                 !states[k].committing && |states[k].lh| + (states[k].outstanding + 1) * MAXOPBLOCKS <= LOGSIZE)
  {
    CoreKeeps(c, states, steps, k);
  }

  /** Log reservation.  An operation within its MAXOPBLOCKS always finds room for a block that
      the list does not have yet; and if the log area is larger than LOGSIZE, `log_write`
      panics for such an operation only in one way: the list is full, the operation has used
      its whole budget, and the block is one it has logged before. */
  lemma ReservationHolds(c: Config, states: seq<State>, steps: seq<Step>, k: nat, i: nat, b: int)
    requires IsRun(c, states, steps) && k <= |steps| && i < |states[k].active|
    requires |states[k].active[i].blocks + {b}| <= MAXOPBLOCKS
    ensures states[k].outstanding >= 1
    ensures b !in states[k].lh ==> |states[k].lh| < LOGSIZE
    ensures c.g.size > LOGSIZE && (|states[k].lh| >= LOGSIZE || |states[k].lh| >= c.g.size - 1) ==>
              && |states[k].lh| == LOGSIZE && |states[k].active[i].blocks| == MAXOPBLOCKS
              && b in states[k].active[i].blocks && b in states[k].lh
  {
    CoreKeeps(c, states, steps, k);
    RoomToAppend(states[k], i, b);
  }
}
