/** Two ends of the log's story: the commit steps of a run are the writes of `commit`; and the
    log is safe exactly for the sizes of its area that make the unlocked tests of `log_write`
    harmless. */
module LogWitness {
  import opened LogDisk
  import opened LogCode
  import opened LogRun
  import opened LogTheorems

  // ---------------------------------------------------------------- commit, step by step

  /** Where a commit of `n` blocks stands after `k` of its writes. */
  function PhaseAt(n: nat, k: nat): (p: Phase)
    requires 0 < n && k <= 2 * n + 2
  {
    if k < n then Logging(k)
    else if k == n then Heading
    else if k <= 2 * n then Installing(k - n - 1)
    else if k == 2 * n + 1 then Erasing
    else Closing
  }

  /** A commit of the pinned blocks `lh`, to be written as `ws`, is about to start from disk `d`. */
  ghost predicate CommitSetup(g: Geometry, d: Disk, pinned: map<int, Block>, lh: seq<int>, vals: seq<Block>,
                              ws: seq<Write>) {
    && Fits(g, d) && Loggable(g, |d|, lh) && 0 < |lh| == |vals|
    && IsCommit(g, d, lh, vals, ws) && InRange(|d|, ws)
    && (forall i :: 0 <= i < |lh| ==> lh[i] in pinned && vals[i] == pinned[lh[i]])
    && (forall b :: b in pinned ==> Home(g, |d|, b))
  }

  /** `k` writes into that commit, the run is in state `r`. */
  ghost predicate CommitAt(d: Disk, pinned: map<int, Block>, lh: seq<int>, ws: seq<Write>, k: nat, r: State)
    requires 0 < |lh| && InRange(|d|, ws) && k <= |ws| == 2 * |lh| + 2
  {
    var n := |lh|;
    && r.phase == PhaseAt(n, k) && r.disk == Apply(d, ws[..k])
    && (k < 2 * n + 2 ==> r.lh == lh)
    && (k <= n ==> r.pinned == pinned)
  }

  /** The write that the run issues next is the next one of `ws`. */
  lemma NextIsCommitWrite(c: Config, d: Disk, pinned: map<int, Block>, lh: seq<int>, vals: seq<Block>,
                          ws: seq<Write>, k: nat, r: State)
    requires CommitSetup(c.g, d, pinned, lh, vals, ws) && k < |ws|
    requires CommitAt(d, pinned, lh, ws, k, r) && Enabled(c, r, Advance)
    ensures NextWrite(c, r) == ws[k]
  {
    hide Encode, Listable, Apply;
    var n := |lh|;
    if k < n {
      assert NextWrite(c, r) == Write(c.g.start + 1 + k, vals[k]);
    } else if k == n {
      assert r.disk[c.g.start] == d[c.g.start] by { BeforeHead(c.g, d, lh, vals, ws, k); }
    } else if k <= 2 * n {
      var t := k - n - 1;
      assert r.disk[c.g.start + 1 + t] == vals[t] by { LoggedCopy(c.g, d, lh, vals, ws, k, t); }
    } else {
      assert r.disk[c.g.start] == Encode(d[c.g.start], lh) by { AfterHead(c.g, d, lh, vals, ws, k); }
    }
  }

  lemma CommitAtNext(c: Config, d: Disk, pinned: map<int, Block>, lh: seq<int>, vals: seq<Block>, ws: seq<Write>,
                     k: nat, r: State)
    requires CommitSetup(c.g, d, pinned, lh, vals, ws) && k < |ws|
    requires CommitAt(d, pinned, lh, ws, k, r) && Enabled(c, r, Advance) && NextWrite(c, r) == ws[k]
    ensures CommitAt(d, pinned, lh, ws, k + 1, Next(c, r, Advance))
  {
    hide Encode, View, Listable, Apply, NextPhase, PhaseAt;
    ApplyNext(d, ws, k);
    PhaseNext(r, |lh|, k);
    assert k < |lh| ==> pinned - {ws[k].addr} == pinned;
  }

  lemma ApplyNext(d: Disk, ws: seq<Write>, k: nat)
    requires InRange(|d|, ws) && k < |ws|
    ensures Apply(d, ws[..k + 1]) == Apply(d, ws[..k])[ws[k].addr := ws[k].data]
  {
    assert ws[..k + 1][..k] == ws[..k];
  }

  lemma PhaseNext(r: State, n: nat, k: nat)
    requires 0 < n == |r.lh| && k < 2 * n + 2 && r.phase == PhaseAt(n, k)
    ensures NextPhase(r) == PhaseAt(n, k + 1)
    ensures r.phase.Heading? <==> k == n
    ensures r.phase.Erasing? <==> k == 2 * n + 1
    ensures !r.phase.Clearing?
  {
  }

  lemma CommitAtStart(s: State, ws: seq<Write>)
    requires 0 < |s.lh| && InRange(|s.disk|, ws) && |ws| == 2 * |s.lh| + 2 && s.phase == Logging(0)
    ensures CommitAt(s.disk, s.pinned, s.lh, ws, 0, s)
  {
    assert ws[..0] == [];
  }

  lemma CommitStep(c: Config, d: Disk, pinned: map<int, Block>, lh: seq<int>, vals: seq<Block>, ws: seq<Write>,
                   k: nat, r: State, r': State)
    requires CommitSetup(c.g, d, pinned, lh, vals, ws) && k < |ws|
    requires CommitAt(d, pinned, lh, ws, k, r) && Enabled(c, r, Advance) && r' == Next(c, r, Advance)
    ensures CommitAt(d, pinned, lh, ws, k + 1, r')
  {
    NextIsCommitWrite(c, d, pinned, lh, vals, ws, k, r);
    CommitAtNext(c, d, pinned, lh, vals, ws, k, r);
  }

  lemma {:induction false} CommitSteps(c: Config, states: seq<State>, steps: seq<Step>, j: nat, k: nat,
                                       vals: seq<Block>, ws: seq<Write>)
    requires IsRun(c, states, steps) && j + k <= |steps| && k <= |ws|
    requires states[j].phase == Logging(0)
    requires CommitSetup(c.g, states[j].disk, states[j].pinned, states[j].lh, vals, ws)
    requires forall i :: j <= i < j + k ==> steps[i] == Advance
    ensures CommitAt(states[j].disk, states[j].pinned, states[j].lh, ws, k, states[j + k])
    decreases k
  {
    hide CommitAt, Enabled, Next, Init;
    var s := states[j];
    if k == 0 {
      CommitAtStart(s, ws);
    } else {
      CommitSteps(c, states, steps, j, k - 1, vals, ws);
      var r, r' := states[j + k - 1], states[j + k];
      assert Enabled(c, r, Advance) && r' == Next(c, r, Advance) by {
        assert steps[j + k - 1] == Advance;
      }
      CommitStep(c, s.disk, s.pinned, s.lh, vals, ws, k - 1, r, r');
    }
  }

  /** In every run, the block writes from the start of a commit on are those of `CommitWrites`
      in that order, which is what the method `Commit` issues. */
  lemma CommitStepsAreCommitWrites(c: Config, states: seq<State>, steps: seq<Step>, j: nat, k: nat)
    requires SafeSize(c.g) && IsRun(c, states, steps) && j + k <= |steps|
    requires states[j].phase == Logging(0) && k <= 2 * |states[j].lh| + 2
    requires forall i :: j <= i < j + k ==> steps[i] == Advance
    ensures Fits(c.g, states[j].disk) && 0 < |states[j].lh| <= LOGSIZE
    ensures forall i :: 0 <= i < |states[j].lh| ==> 0 <= states[j].lh[i] < |states[j].disk|
    ensures var s := states[j];
            var ws := CommitWrites(c.g, s.disk, s.lh, Views(s.pinned, s.disk, s.lh));
            InRange(|s.disk|, ws) && CommitAt(s.disk, s.pinned, s.lh, ws, k, states[j + k])
  {
    RunKeeps(c, states, steps, j);
    CommitStarts(c, states[j]);
    var s := states[j];
    var vals := Views(s.pinned, s.disk, s.lh);
    CommitSteps(c, states, steps, j, k, vals, CommitWrites(c.g, s.disk, s.lh, vals));
  }

  lemma CommitStarts(c: Config, s: State)
    requires DiskInv(c.g, s) && s.phase == Logging(0)
    ensures forall i :: 0 <= i < |s.lh| ==> 0 <= s.lh[i] < |s.disk|
    ensures var vals := Views(s.pinned, s.disk, s.lh);
            CommitSetup(c.g, s.disk, s.pinned, s.lh, vals, CommitWrites(c.g, s.disk, s.lh, vals))
  {
    assert forall i :: 0 <= i < |s.lh| ==> Home(c.g, |s.disk|, s.lh[i]);
    PinnedAreHome(c.g, s, 0);
    assert s.lh[0..] == s.lh;
    var vals := Views(s.pinned, s.disk, s.lh);
    CommitWritesAre(c.g, s.disk, s.lh, vals);
    CommitInRange(c.g, s.disk, s.lh, vals, CommitWrites(c.g, s.disk, s.lh, vals));
  }

  // ---------------------------------------------------------------- runs that fill the log

  /** One more step makes a longer run. */
  lemma Extend(c: Config, states: seq<State>, steps: seq<Step>, step: Step)
    returns (states': seq<State>, steps': seq<Step>)
    requires IsRun(c, states, steps) && Enabled(c, states[|steps|], step)
    ensures states' == states + [Next(c, states[|steps|], step)] && steps' == steps + [step]
    ensures IsRun(c, states', steps')
    ensures states'[|steps'|] == Next(c, states[|steps|], step)
  {
    states', steps' := states + [Next(c, states[|steps|], step)], steps + [step];
    forall k | 0 <= k < |steps'|
      ensures Enabled(c, states'[k], steps'[k]) && states'[k + 1] == Next(c, states'[k], steps'[k])
    {
      if k < |steps| { assert states'[k] == states[k] && states'[k + 1] == states[k + 1]; }
    }
  }

  /** How many of `m` blocks the j-th of three operations logged, taking turns. */
  function Share(m: nat, j: nat): (n: nat)
    requires j < 3
  {
    (m + 2 - j) / 3
  }

  /** The first block that the operations below log: the second one after the log area. */
  function Base(c: Config): (b: nat) {
    c.g.start + c.g.size + 1
  }

  /** A disk with an empty log and room for LOGSIZE homes and one more after it. */
  ghost predicate Roomy(c: Config) {
    && Readable(c.g, c.init) && Decode(c.init[c.g.start]) == []
    && |c.init| > c.g.start + c.g.size + LOGSIZE
  }

  /** The disk is as it was at power-on, but for a header that is empty. */
  ghost predicate Untouched(c: Config, d: Disk) {
    && Fits(c.g, d) && |d| == |c.init| && d[c.g.start][0] == 0
    && forall b :: Home(c.g, |d|, b) ==> d[b] == c.init[b]
  }

  /** The list holds `m` consecutive blocks, all of them pinned with the same contents. */
  ghost predicate Lists(c: Config, s: State, m: nat, data: Block) {
    && |s.lh| == m
    && forall i :: 0 <= i < m ==> s.lh[i] == Base(c) + i && s.lh[i] in s.pinned && s.pinned[s.lh[i]] == data
  }

  ghost predicate HasShare(o: ActiveOp, base: int, m: nat, j: nat)
    requires j < 3
  {
    && |o.blocks| == Share(m, j)
    && (forall x :: x in o.blocks ==> base <= x < base + m)
    && (m > j ==> base + j in o.blocks)
  }

  /** Three operations are running, have logged `m` blocks between them, and the j-th has passed
      `ps[j]` of the tests of its next `log_write`. */
  ghost predicate Filled(c: Config, s: State, m: nat, data: Block, ps: seq<nat>) {
    && s.phase == Idle && !s.committing && s.outstanding == 3 && |s.active| == 3 == |ps|
    && s.groups == [] && Untouched(c, s.disk) && Lists(c, s, m, data)
    && forall j :: 0 <= j < 3 ==> HasShare(s.active[j], Base(c), m, j) && s.active[j].passed == ps[j]
  }

  /** Boot, and clear the log. */
  lemma BootUp(c: Config) returns (states: seq<State>, steps: seq<Step>)
    requires Roomy(c)
    ensures IsRun(c, states, steps)
    ensures var s := states[|steps|];
            && s.phase == Idle && !s.committing && s.outstanding == 0 && s.active == [] && s.lh == []
            && s.groups == [] && Untouched(c, s.disk)
  {
    hide Recovered, Listable, View;
    var s0 := State(c.init, map[], [], 0, false, Down, {}, [], {}, 0, [], [], [],
                    Recovered(c.g, c.init), Recovered(c.g, c.init));
    states, steps := [s0], [];
    states, steps := Extend(c, states, steps, Boot);
    states, steps := Extend(c, states, steps, Advance);
  }

  /** Start three operations. */
  lemma Warm(c: Config, data: Block) returns (states: seq<State>, steps: seq<Step>)
    requires Roomy(c)
    ensures IsRun(c, states, steps) && Filled(c, states[|steps|], 0, data, [0, 0, 0])
  {
    hide Init, Untouched, Roomy;
    states, steps := BootUp(c);
    states, steps := Extend(c, states, steps, BeginOp);
    states, steps := Extend(c, states, steps, BeginOp);
    states, steps := Extend(c, states, steps, BeginOp);
  }

  /** The two tests of the j-th operation. */
  lemma PassTests(c: Config, states: seq<State>, steps: seq<Step>, m: nat, data: Block, ps: seq<nat>, j: nat)
    returns (states': seq<State>, steps': seq<Step>)
    requires IsRun(c, states, steps) && Filled(c, states[|steps|], m, data, ps)
    requires j < 3 && ps[j] == 0 && m < LOGSIZE && m < c.g.size - 1
    ensures IsRun(c, states', steps') && Filled(c, states'[|steps'|], m, data, ps[j := 2])
  {
    hide Init, Untouched, HasShare, Share;
    var s := states[|steps|];
    states', steps' := Extend(c, states, steps, TestList(j));
    states', steps' := Extend(c, states', steps', TestArea(j));
    TestsKeepFilled(c, s, m, data, ps, j);
  }

  lemma TestsKeepFilled(c: Config, s: State, m: nat, data: Block, ps: seq<nat>, j: nat)
    requires Filled(c, s, m, data, ps) && j < 3 && ps[j] == 0
    ensures Filled(c, AfterTest(s, j), m, data, ps[j := 1])
    ensures Filled(c, AfterTest(AfterTest(s, j), j), m, data, ps[j := 2])
  {
    hide Untouched, Share;
  }

  /** The critical section of the operation whose turn it is. */
  lemma AppendNext(c: Config, states: seq<State>, steps: seq<Step>, m: nat, data: Block, ps: seq<nat>, j: nat)
    returns (states': seq<State>, steps': seq<Step>)
    requires Roomy(c) && IsRun(c, states, steps) && Filled(c, states[|steps|], m, data, ps)
    requires j == m % 3 && ps[j] == 2 && m < LOGSIZE
    ensures IsRun(c, states', steps') && Filled(c, states'[|steps'|], m + 1, data, ps[j := 0])
  {
    hide Init, Untouched, Lists, HasShare, Share;
    var s := states[|steps|];
    AppendKeepsFilled(c, s, m, data, ps, j);
    states', steps' := Extend(c, states, steps, Append(j, Base(c) + m, data));
  }

  lemma AppendKeepsFilled(c: Config, s: State, m: nat, data: Block, ps: seq<nat>, j: nat)
    requires Roomy(c) && Filled(c, s, m, data, ps) && j == m % 3 && ps[j] == 2 && m < LOGSIZE
    ensures Enabled(c, s, Append(j, Base(c) + m, data))
    ensures Filled(c, AfterAppend(s, j, Base(c) + m, data), m + 1, data, ps[j := 0])
  {
    hide Untouched, Share;
    var r := AfterAppend(s, j, Base(c) + m, data);
    ShareGrows(s.active[j], Base(c), m, j);
    assert Lists(c, r, m + 1, data) by { ListGrows(c, s, r, m, data); }
    forall l | 0 <= l < 3
      ensures HasShare(r.active[l], Base(c), m + 1, l)
    {
      if l != j { OtherShare(s.active[l], Base(c), m, l); }
    }
    assert Home(c.g, |s.disk|, Base(c) + m) by { FilledDisk(c, s.disk); }
  }

  lemma FilledDisk(c: Config, d: Disk)
    requires Untouched(c, d)
    ensures |d| == |c.init|
  {
  }

  lemma ListGrows(c: Config, s: State, r: State, m: nat, data: Block)
    requires Lists(c, s, m, data)
    requires r.lh == Absorb(s.lh, Base(c) + m) && r.pinned == s.pinned[Base(c) + m := data]
    ensures Lists(c, r, m + 1, data)
  {
    assert Base(c) + m !in s.lh;
  }

  lemma ShareGrows(o: ActiveOp, base: int, m: nat, j: nat)
    requires j == m % 3 && HasShare(o, base, m, j) && m < LOGSIZE
    ensures |o.blocks + {base + m}| <= MAXOPBLOCKS
    ensures HasShare(o.(blocks := o.blocks + {base + m}, passed := 0), base, m + 1, j)
  {
    assert base + m !in o.blocks;
  }

  lemma OtherShare(o: ActiveOp, base: int, m: nat, j: nat)
    requires j < 3 && j != m % 3 && HasShare(o, base, m, j)
    ensures HasShare(o, base, m + 1, j)
  {
  }

  /** Any number of blocks that pass the size tests can be logged. */
  lemma {:induction false} Fill(c: Config, m: nat, data: Block) returns (states: seq<State>, steps: seq<Step>)
    requires Roomy(c) && m <= LOGSIZE && m < c.g.size
    ensures IsRun(c, states, steps) && Filled(c, states[|steps|], m, data, [0, 0, 0])
  {
    hide Init, Filled, Roomy;
    if m == 0 {
      states, steps := Warm(c, data);
    } else {
      states, steps := Fill(c, m - 1, data);
      var j := (m - 1) % 3;
      states, steps := PassTests(c, states, steps, m - 1, data, [0, 0, 0], j);
      states, steps := AppendNext(c, states, steps, m - 1, data, [0, 0, 0][j := 2], j);
      assert [0, 0, 0][j := 2][j := 0] == [0, 0, 0];
    }
  }

  // ---------------------------------------------------------------- the size tests

  /** In state `s`, the i-th operation, which would log `b` within its budget, is stopped by a
      size test of `log_write`. */
  ghost predicate PanicsInBudget(c: Config, s: State, i: nat, b: int) {
    && i < |s.active| && Home(c.g, |s.disk|, b) && |s.active[i].blocks + {b}| <= MAXOPBLOCKS
    && if s.active[i].passed == 0 then |s.lh| >= LOGSIZE else s.active[i].passed == 1 && |s.lh| >= c.g.size - 1
  }

  /** No run lets an operation within its budget panic when it appends a block. */
  ghost predicate AppendsNeverPanic(c: Config) {
    forall states: seq<State>, steps: seq<Step>, i: nat, b: int ::
      IsRun(c, states, steps) && b !in states[|steps|].lh ==> !PanicsInBudget(c, states[|steps|], i, b)
  }

  /** A run in which an operation within its budget is stopped by the second test. */
  lemma InBudgetPanics(c: Config) returns (states: seq<State>, steps: seq<Step>, i: nat, b: int)
    requires Roomy(c) && c.g.size <= LOGSIZE
    ensures IsRun(c, states, steps)
    ensures b !in states[|steps|].lh && PanicsInBudget(c, states[|steps|], i, b)
  {
    hide Init, Filled, Enabled, PanicsInBudget;
    var m := c.g.size - 1;
    var data := seq(BWORDS, _ => 0);
    states, steps := Fill(c, m, data);
    i, b := m % 3, Base(c) + m;
    StoppedBySecondTest(c, states[|steps|], m, data, i);
    states, steps := Extend(c, states, steps, TestList(i));
  }

  lemma StoppedBySecondTest(c: Config, s: State, m: nat, data: Block, i: nat)
    requires Roomy(c) && Filled(c, s, m, data, [0, 0, 0]) && m == c.g.size - 1 < LOGSIZE && i == m % 3
    ensures Enabled(c, s, TestList(i)) && Base(c) + m !in s.lh
    ensures PanicsInBudget(c, AfterTest(s, i), i, Base(c) + m)
  {
    hide Share;
    ShareGrows(s.active[i], Base(c), m, i);
  }

  /** The size tests of `log_write` never stop an append within budget exactly when the log
      area has more than LOGSIZE blocks.  (mkfs makes it exactly LOGSIZE blocks.) */
  lemma AppendsNeverPanicIff(c: Config)
    requires Roomy(c)
    ensures AppendsNeverPanic(c) <==> c.g.size > LOGSIZE
  {
    if c.g.size > LOGSIZE {
      forall states: seq<State>, steps: seq<Step>, i: nat, b: int | IsRun(c, states, steps) && b !in states[|steps|].lh
        ensures !PanicsInBudget(c, states[|steps|], i, b)
      {
        if PanicsInBudget(c, states[|steps|], i, b) {
          ReservationHolds(c, states, steps, |steps|, i, b);
        }
      }
    } else {
      var states, steps, i, b := InBudgetPanics(c);
      assert PanicsInBudget(c, states[|steps|], i, b);
    }
  }

  /** With a larger log area the test can still stop a write that would have been absorbed:
      three operations that use their whole budgets fill the list, and then writing a listed
      block again panics. */
  lemma AbsorbedWriteCanPanic(c: Config) returns (states: seq<State>, steps: seq<Step>, b: int)
    requires Roomy(c) && c.g.size > LOGSIZE
    ensures IsRun(c, states, steps)
    ensures b in states[|steps|].lh && PanicsInBudget(c, states[|steps|], 0, b)
  {
    states, steps := Fill(c, LOGSIZE, c.init[0]);
    b := Base(c);
    var s := states[|steps|];
    assert HasShare(s.active[0], Base(c), LOGSIZE, 0);
    assert s.active[0].blocks + {b} == s.active[0].blocks;
    assert s.lh[0] == b;
  }

  // ---------------------------------------------------------------- runs that overflow the log area

  /** A commit of as many blocks as the log area has is about to write the t-th of them. */
  ghost predicate Overfull(c: Config, s: State, data: Block, t: nat) {
    && s.phase == Logging(t) && t < c.g.size && s.groups == []
    && Untouched(c, s.disk) && Lists(c, s, c.g.size, data)
  }

  /** Two operations pass the tests while one block of room is left, and then both append. */
  lemma Overfill(c: Config, data: Block) returns (states: seq<State>, steps: seq<Step>)
    requires Roomy(c) && 2 <= c.g.size <= LOGSIZE
    ensures IsRun(c, states, steps) && Filled(c, states[|steps|], c.g.size, data, [0, 0, 0])
  {
    hide Init, Filled, Roomy;
    var m := c.g.size - 2;
    var i, j := m % 3, (m + 1) % 3;
    states, steps := Fill(c, m, data);
    states, steps := PassTests(c, states, steps, m, data, [0, 0, 0], i);
    states, steps := PassTests(c, states, steps, m, data, [0, 0, 0][i := 2], j);
    states, steps := AppendNext(c, states, steps, m, data, [0, 0, 0][i := 2][j := 2], i);
    states, steps := AppendNext(c, states, steps, m + 1, data, [0, 0, 0][i := 2][j := 2][i := 0], j);
    assert [0, 0, 0][i := 2][j := 2][i := 0][j := 0] == [0, 0, 0];
  }

  lemma EndAll(c: Config, data: Block) returns (states: seq<State>, steps: seq<Step>)
    requires Roomy(c) && 2 <= c.g.size <= LOGSIZE
    ensures IsRun(c, states, steps) && Overfull(c, states[|steps|], data, 0)
  {
    hide Init, Untouched, HasShare, Roomy;
    states, steps := Overfill(c, data);
    states, steps := Extend(c, states, steps, EndOp(0));
    states, steps := Extend(c, states, steps, EndOp(0));
    states, steps := Extend(c, states, steps, EndOp(0));
  }

  lemma LogsOneMore(c: Config, s: State, data: Block)
    requires Roomy(c) && c.g.size <= LOGSIZE && s.phase.Logging? && Overfull(c, s, data, s.phase.t)
    ensures Enabled(c, s, Advance)
    ensures s.phase.t + 1 < c.g.size ==> Overfull(c, Next(c, s, Advance), data, s.phase.t + 1)
  {
    var t := s.phase.t;
    assert s.lh[t] == Base(c) + t;
    assert NextWrite(c, s).addr == c.g.start + 1 + t;
  }

  /** `write_log` up to the block that the log area has no room for. */
  lemma {:induction false} LogUpTo(c: Config, data: Block, t: nat) returns (states: seq<State>, steps: seq<Step>)
    requires Roomy(c) && t < c.g.size && 2 <= c.g.size <= LOGSIZE
    ensures IsRun(c, states, steps) && Overfull(c, states[|steps|], data, t)
  {
    hide Init, Next, Enabled, Roomy;
    if t == 0 {
      states, steps := EndAll(c, data);
    } else {
      states, steps := LogUpTo(c, data, t - 1);
      LogsOneMore(c, states[|steps|], data);
      states, steps := Extend(c, states, steps, Advance);
    }
  }

  /** The run's last step is one of `write_log`, and it overwrites a home block, the one after
      the log area, although no group has been committed. */
  lemma Overwrites(c: Config, data: Block) returns (states: seq<State>, steps: seq<Step>)
    requires Roomy(c) && 2 <= c.g.size <= LOGSIZE
    ensures IsRun(c, states, steps) && |steps| > 0
    ensures var b := c.g.start + c.g.size;
            var s, r := states[|steps| - 1], states[|steps|];
            && |s.disk| == |r.disk| == |c.init| && Home(c.g, |s.disk|, b) && s.phase.Logging?
            && s.disk[b] == c.init[b] && r.disk[b] == data
            && r.groups == [] && Fits(c.g, r.disk) && r.disk[c.g.start][0] == 0
  {
    var t := c.g.size - 1;
    states, steps := LogUpTo(c, data, t);
    var s := states[|steps|];
    LogsOneMore(c, s, data);
    assert s.lh[t] == Base(c) + t;
    assert NextWrite(c, s) == Write(c.g.start + c.g.size, data);
    states, steps := Extend(c, states, steps, Advance);
  }

  /** Every crash of every run recovers exactly what the committed groups made of the disk. */
  ghost predicate CrashSafe(c: Config)
    requires Readable(c.g, c.init)
  {
    forall states: seq<State>, steps: seq<Step> :: IsRun(c, states, steps) ==>
      Safe(c, states[|steps|])
  }

  ghost predicate Safe(c: Config, s: State)
    requires Readable(c.g, c.init)
  {
    Readable(c.g, s.disk) && SameHome(c.g, Recovered(c.g, s.disk), Content(c, s.groups))
  }

  /** No step of any run but one of `install_trans` changes a home block on disk. */
  ghost predicate HomesSafe(c: Config) {
    forall states: seq<State>, steps: seq<Step>, b: int :: LastStepSafe(c, states, steps, b)
  }

  ghost predicate LastStepSafe(c: Config, states: seq<State>, steps: seq<Step>, b: int) {
    IsRun(c, states, steps) && |steps| > 0 ==>
      var s, r := states[|steps| - 1], states[|steps|];
      Home(c.g, |s.disk|, b) ==>
        |r.disk| == |s.disk| && (r.disk[b] != s.disk[b] ==> s.phase.Installing? || s.phase.Redoing?)
  }

  lemma NotSafe(c: Config, s: State)
    requires Roomy(c) && Fits(c.g, s.disk) && s.disk[c.g.start][0] == 0 && |s.disk| == |c.init| && s.groups == []
    requires Home(c.g, |s.disk|, c.g.start + c.g.size)
    requires s.disk[c.g.start + c.g.size] != c.init[c.g.start + c.g.size]
    ensures !Safe(c, s)
  {
    hide Recovered;
    var b := c.g.start + c.g.size;
    assert Decode(s.disk[c.g.start]) == [];
    RecoveredAt(c.g, s.disk, b);
    RecoveredAt(c.g, c.init, b);
  }

  lemma SafeIfSize(c: Config)
    requires Readable(c.g, c.init) && SafeSize(c.g)
    ensures CrashSafe(c) && HomesSafe(c)
  {
    hide CanInterrupt, Interrupted, Recovered, Readable, Content, Enabled, Next, Init, SafeSize;
    forall states: seq<State>, steps: seq<Step> | IsRun(c, states, steps)
      ensures Safe(c, states[|steps|])
    {
      CrashRecoversGroups(c, states, steps, |steps|, []);
    }
    forall states: seq<State>, steps: seq<Step>, b: int
      ensures LastStepSafe(c, states, steps, b)
    {
      if IsRun(c, states, steps) && |steps| > 0 && Home(c.g, |states[|steps| - 1].disk|, b) {
        HomeChangesOnlyByInstall(c, states, steps, |steps| - 1, b);
      }
    }
  }

  /** The exact condition.  Since `log_write` makes its tests before it takes the lock, two
      operations can pass them at the same time; the log is crash safe, and home blocks are
      changed by `install_trans` alone, exactly when the log area is larger than LOGSIZE, where
      the reservations of `begin_op` suffice, or has no room for anything.  (mkfs makes it
      exactly LOGSIZE blocks.) */
  lemma LogIsSafeIff(c: Config)
    requires Roomy(c)
    ensures CrashSafe(c) <==> SafeSize(c.g)
    ensures HomesSafe(c) <==> SafeSize(c.g)
  {
    if SafeSize(c.g) {
      SafeIfSize(c);
    } else {
      var b := c.g.start + c.g.size;
      var data := c.init[b][0 := c.init[b][0] + 1];
      assert data[0] != c.init[b][0];
      var states, steps := Overwrites(c, data);
      NotSafe(c, states[|steps|]);
      assert !LastStepSafe(c, states, steps, b);
    }
  }
}
