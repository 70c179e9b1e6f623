/** proc.c: the process table under ptable.lock.

    Each method is one critical section, by the running process `cur` where it has one, so runs
    are all interleavings of these methods.  A process is known by its slot; -1 is the null
    pointer.  A process that was asleep in `wait` or `join` and runs again calls the method
    again, which is the next round of the loop.  `fork` and `clone` store into the slot they have
    allocated without the lock; each such store is a step of its own (`Store`). */
module ProcTable {

  datatype State = Unused | Embryo | Sleeping | Runnable | Running | Zombie

  /** What a process sleeps on: the address of a process, or anything else. */
  datatype Chan = OnProc(slot: int) | OnOther(key: nat)

  /** The call in which a process last went to sleep. */
  datatype Call = InWait | InJoin(pid: nat) | InOther

  datatype Proc = Proc(state: State, pid: nat, parent: int, pthread: int, isThread: bool, tgid: nat, killed: bool,
                       chan: Chan, call: Call)

  /** How a round of `wait` or `join` ends. */
  datatype Outcome = Reaped(pid: nat) | NoChild | Slept

  // ---------------------------------------------------------------- what every section keeps

  /** Process `p` is not asleep in `wait` while its child `c` is a zombie. */
  ghost predicate WaitOk(ps: seq<Proc>, p: nat, c: nat)
    requires p < |ps| && c < |ps|
  {
    ps[p].state == Sleeping && ps[p].call == InWait && ps[c].parent == p && !ps[c].isThread ==> ps[c].state != Zombie
  }

  /** Process `p` is not asleep in `join` while its thread `c` is a zombie, if it was `c`'s parent
      that cloned it. */
  ghost predicate JoinOk(ps: seq<Proc>, p: nat, c: nat)
    requires p < |ps| && c < |ps|
  {
    ps[p].state == Sleeping && ps[p].call.InJoin? && ps[c].pid == ps[p].call.pid ==>
      ps[c].parent == p && (ps[c].pthread == ps[c].parent ==> ps[c].state != Zombie)
  }

  ghost predicate NoLostExit(ps: seq<Proc>) {
    && (forall p: nat, c: nat :: p < |ps| && c < |ps| ==> WaitOk(ps, p, c))
    && (forall p: nat, c: nat :: p < |ps| && c < |ps| ==> JoinOk(ps, p, c))
  }

  /** Pids are given out once, and returned to a parent at most once. */
  ghost predicate Pids(ps: seq<Proc>, nextpid: nat, returned: set<nat>) {
    && 0 < nextpid && (forall x :: x in returned ==> 0 < x < nextpid)
    && (forall i :: 0 <= i < |ps| && ps[i].pid != 0 ==> ps[i].pid < nextpid && ps[i].pid !in returned)
    && (forall i, j :: 0 <= i < j < |ps| && ps[i].pid != 0 ==> ps[i].pid != ps[j].pid)
    && (forall i :: 0 <= i < |ps| && ps[i].state == Sleeping && ps[i].call.InJoin? ==> 0 < ps[i].call.pid < nextpid)
  }

  ghost predicate Slots(ps: seq<Proc>) {
    && (forall i :: 0 <= i < |ps| && ps[i].state == Sleeping && !ps[i].call.InOther? ==> ps[i].chan == OnProc(i))
    && (forall i :: 0 <= i < |ps| && ps[i].state == Unused ==> ps[i].parent == -1)
    && (forall i :: 0 <= i < |ps| && ps[i].state != Unused ==> ps[i].pid != 0)
  }

  predicate Alive(s: State) {
    s == Sleeping || s == Runnable || s == Running
  }

  /** Every parent is a slot, and only a thread's can be its own.  It need not be the slot of a
      live process: a thread may read its parent in `clone` just before that process exits. */
  ghost predicate Parents(ps: seq<Proc>) {
    forall i :: 0 <= i < |ps| ==> ParentOk(ps, i, ps[i])
  }

  ghost predicate ParentOk(ps: seq<Proc>, i: nat, q: Proc) {
    q.parent == -1 || (0 <= q.parent < |ps| && (q.parent != i || q.isThread || q.state == Embryo))
  }

  ghost predicate Inv(ps: seq<Proc>, nextpid: nat, returned: set<nat>) {
    Slots(ps) && Parents(ps) && Pids(ps, nextpid, returned) && NoLostExit(ps)
  }

  // ---------------------------------------------------------------- single steps

  /** Only the state of sleepers may change, and only to runnable. */
  ghost predicate Woken(a: Proc, b: Proc) {
    b == a || (a.state == Sleeping && b == a.(state := Runnable))
  }

  lemma WakingKeeps(ps: seq<Proc>, qs: seq<Proc>, nextpid: nat, returned: set<nat>)
    requires Inv(ps, nextpid, returned) && |qs| == |ps| && forall i :: 0 <= i < |ps| ==> Woken(ps[i], qs[i])
    ensures Inv(qs, nextpid, returned)
  {
    assert Slots(qs) && Parents(qs) by { hide Pids, NoLostExit; }
    assert Pids(qs, nextpid, returned) by { hide Slots, Parents, NoLostExit; }
    assert NoLostExit(qs) by { WakingLosesNone(ps, qs); }
  }

  lemma WakingLosesNone(ps: seq<Proc>, qs: seq<Proc>)
    requires NoLostExit(ps) && |qs| == |ps| && forall i :: 0 <= i < |ps| ==> Woken(ps[i], qs[i])
    ensures NoLostExit(qs)
  {
    forall p: nat, c: nat | p < |qs| && c < |qs|
      ensures WaitOk(qs, p, c) && JoinOk(qs, p, c)
    {
      assert WaitOk(ps, p, c) && JoinOk(ps, p, c);
    }
  }

  /** Slot `i` changes to `q`, which is no zombie and not asleep in `wait` or `join`; a process
      gets a parent only once. */
  ghost predicate Quiet(ps: seq<Proc>, i: nat, q: Proc, nextpid: nat, nextpid': nat) {
    && i < |ps| && nextpid <= nextpid'
    && q.state != Zombie && (q.state == Sleeping ==> q.call.InOther?)
    && ((q.pid == ps[i].pid && (q.parent == ps[i].parent || ps[i].parent == -1)) || nextpid <= q.pid < nextpid')
    && (q.state == Unused ==> q.parent == -1) && (q.state != Unused ==> q.pid != 0)
    && ParentOk(ps, i, q)
  }

  lemma QuietKeeps(ps: seq<Proc>, i: nat, q: Proc, nextpid: nat, nextpid': nat, returned: set<nat>)
    requires Inv(ps, nextpid, returned) && Quiet(ps, i, q, nextpid, nextpid')
    ensures Inv(ps[i := q], nextpid', returned)
  {
    var qs := ps[i := q];
    assert Slots(qs) && Parents(qs) by { hide Pids, NoLostExit; }
    assert Pids(qs, nextpid', returned) by { hide Slots, Parents, NoLostExit; }
    assert NoLostExit(qs) by { QuietLosesNone(ps, i, q, nextpid, nextpid', returned); }
  }

  lemma QuietLosesNone(ps: seq<Proc>, i: nat, q: Proc, nextpid: nat, nextpid': nat, returned: set<nat>)
    requires NoLostExit(ps) && Pids(ps, nextpid, returned) && Quiet(ps, i, q, nextpid, nextpid')
    ensures NoLostExit(ps[i := q])
  {
    var qs := ps[i := q];
    forall p: nat, c: nat | p < |qs| && c < |qs|
      ensures WaitOk(qs, p, c) && JoinOk(qs, p, c)
    {
      assert WaitOk(ps, p, c) && JoinOk(ps, p, c);
    }
  }

  /** A zombie is reaped by its parent. */
  lemma ReapKeeps(ps: seq<Proc>, i: nat, q: Proc, nextpid: nat, returned: set<nat>)
    requires Inv(ps, nextpid, returned) && i < |ps| && ps[i].state == Zombie && ps[i].pid != 0
    requires q.state == Unused && q.pid == 0 && q.parent == -1
    ensures Inv(ps[i := q], nextpid, returned + {ps[i].pid}) && ps[i].pid !in returned
  {
    var qs := ps[i := q];
    forall p: nat, c: nat | p < |qs| && c < |qs|
      ensures WaitOk(qs, p, c) && JoinOk(qs, p, c)
    {
      assert WaitOk(ps, p, c) && JoinOk(ps, p, c);
    }
  }

  /** A process with no zombie child goes to sleep in `wait`. */
  lemma WaitSleeps(ps: seq<Proc>, i: nat, nextpid: nat, returned: set<nat>)
    requires Inv(ps, nextpid, returned) && i < |ps| && ps[i].state == Running
    requires forall c :: 0 <= c < |ps| && ps[c].parent == i && !ps[c].isThread ==> ps[c].state != Zombie
    ensures Inv(ps[i := ps[i].(state := Sleeping, chan := OnProc(i), call := InWait)], nextpid, returned)
  {
    var qs := ps[i := ps[i].(state := Sleeping, chan := OnProc(i), call := InWait)];
    forall p: nat, c: nat | p < |qs| && c < |qs|
      ensures WaitOk(qs, p, c) && JoinOk(qs, p, c)
    {
      assert WaitOk(ps, p, c) && JoinOk(ps, p, c);
    }
  }

  /** A process goes to sleep in `join` for a thread of its own that has not exited. */
  lemma JoinSleeps(ps: seq<Proc>, i: nat, t: nat, pid: nat, nextpid: nat, returned: set<nat>)
    requires Inv(ps, nextpid, returned) && i < |ps| && ps[i].state == Running
    requires t < |ps| && ps[t].pid == pid != 0 && ps[t].parent == i && ps[t].state != Zombie
    ensures Inv(ps[i := ps[i].(state := Sleeping, chan := OnProc(i), call := InJoin(pid))], nextpid, returned)
  {
    var qs := ps[i := ps[i].(state := Sleeping, chan := OnProc(i), call := InJoin(pid))];
    forall p: nat, c: nat | p < |qs| && c < |qs|
      ensures WaitOk(qs, p, c) && JoinOk(qs, p, c)
    {
      assert WaitOk(ps, p, c) && JoinOk(ps, p, c);
    }
  }

  // ---------------------------------------------------------------- exit

  /** The process whose sleep `exit` ends: the one that cloned a thread, the parent otherwise. */
  function Waker(a: Proc): (slot: int) {
    if a.isThread then a.pthread else a.parent
  }

  /** What `exit` of `cur` does to another process. */
  ghost predicate ExitStep(ps: seq<Proc>, qs: seq<Proc>, cur: nat, init: nat, i: nat)
    requires cur < |ps| == |qs| && i < |ps|
  {
    && Woken(ps[i].(parent := if ps[i].parent == cur then init else ps[i].parent), qs[i])
    && (ps[i].chan == OnProc(Waker(ps[cur])) ==> qs[i].state != Sleeping)
    && (qs[i].state != ps[i].state ==> WokenBy(ps, cur, init, |ps|, ps[i].chan))
  }

  ghost predicate ZombieChild(ps: seq<Proc>, cur: nat, c: nat)
    requires c < |ps|
  {
    ps[c].parent == cur && ps[c].state == Zombie
  }

  /** Sleepers on this channel are woken while the first `k` slots are handed on. */
  ghost predicate WokenBy(ps: seq<Proc>, cur: nat, init: nat, k: nat, chan: Chan)
    requires cur < |ps| && k <= |ps|
  {
    chan == OnProc(Waker(ps[cur])) || (chan == OnProc(init) && exists c: nat :: c < k && ZombieChild(ps, cur, c))
  }

  /** `exit` as a whole: children go to `init`, which is woken if one of them is a zombie. */
  ghost predicate Exited(ps: seq<Proc>, qs: seq<Proc>, cur: nat, init: nat) {
    && cur < |ps| == |qs| && init < |ps| && init != cur
    && qs[cur] == ps[cur].(state := Zombie, parent := if ps[cur].parent == cur then init else ps[cur].parent)
    && (forall i: nat :: i < |ps| && i != cur ==> ExitStep(ps, qs, cur, init, i))
    && (forall c: nat :: c < |ps| && ZombieChild(ps, cur, c) ==> InitAwake(ps, qs, init))
  }

  ghost predicate InitAwake(ps: seq<Proc>, qs: seq<Proc>, init: nat)
    requires |ps| == |qs|
  {
    forall i: nat :: i < |ps| && ps[i].chan == OnProc(init) ==> qs[i].state != Sleeping
  }

  lemma ExitKeeps(ps: seq<Proc>, qs: seq<Proc>, cur: nat, init: nat, nextpid: nat, returned: set<nat>)
    requires Inv(ps, nextpid, returned) && Exited(ps, qs, cur, init) && ps[cur].state == Running
    requires Alive(ps[init].state) && ps[init].parent == -1
    ensures Inv(qs, nextpid, returned) && Alive(qs[init].state) && qs[init].parent == -1
  {
    forall i | 0 <= i < |ps|
      ensures qs[i].pid == ps[i].pid && qs[i].chan == ps[i].chan && qs[i].call == ps[i].call
      ensures qs[i].state == Sleeping ==> ps[i].state == Sleeping
      ensures qs[i].state == Unused ==> ps[i].state == Unused && qs[i].parent == -1
      ensures qs[i].state != Unused ==> ps[i].state != Unused
      ensures i != cur && Alive(ps[i].state) ==> Alive(qs[i].state)
      ensures qs[i].isThread == ps[i].isThread && (ps[i].state == Embryo ==> qs[i].state == Embryo)
      ensures qs[i].parent == if ps[i].parent == cur then init else ps[i].parent
    {
      assert i != cur ==> ExitStep(ps, qs, cur, init, i);
    }
    forall i | 0 <= i < |ps|
      ensures ParentOk(qs, i, qs[i])
    {
      assert ParentOk(ps, i, ps[i]);
    }
    forall p: nat, c: nat | p < |qs| && c < |qs|
      ensures WaitOk(qs, p, c) && JoinOk(qs, p, c)
    {
      ExitWait(ps, qs, cur, init, nextpid, returned, p, c);
      ExitJoin(ps, qs, cur, init, nextpid, returned, p, c);
    }
  }

  lemma ExitWait(ps: seq<Proc>, qs: seq<Proc>, cur: nat, init: nat, nextpid: nat, returned: set<nat>, p: nat, c: nat)
    requires Inv(ps, nextpid, returned) && Exited(ps, qs, cur, init) && ps[cur].state == Running
    requires Alive(ps[init].state) && ps[init].parent == -1
    requires p < |ps| && c < |ps|
    ensures WaitOk(qs, p, c)
  {
    assert WaitOk(ps, p, c);
    assert p != cur ==> ExitStep(ps, qs, cur, init, p);
    assert c != cur ==> ExitStep(ps, qs, cur, init, c);
    assert ZombieChild(ps, cur, c) ==> InitAwake(ps, qs, init);
  }

  lemma ExitJoin(ps: seq<Proc>, qs: seq<Proc>, cur: nat, init: nat, nextpid: nat, returned: set<nat>, p: nat, c: nat)
    requires Inv(ps, nextpid, returned) && Exited(ps, qs, cur, init) && ps[cur].state == Running
    requires Alive(ps[init].state) && ps[init].parent == -1
    requires p < |ps| && c < |ps|
    ensures JoinOk(qs, p, c)
  {
    assert JoinOk(ps, p, c);
    assert p != cur ==> ExitStep(ps, qs, cur, init, p);
    assert c != cur ==> ExitStep(ps, qs, cur, init, c);
  }

  /** Exactly when `exit` of a thread leaves its joiner asleep: another process cloned the
      thread, and the joiner is not woken as init, to which the thread leaves a zombie. */
  lemma JoinerSleepsIff(ps: seq<Proc>, qs: seq<Proc>, cur: nat, init: nat, nextpid: nat, returned: set<nat>, p: nat)
    requires Inv(ps, nextpid, returned) && Exited(ps, qs, cur, init) && ps[cur].state == Running && ps[cur].isThread
    requires p < |ps| && ps[p].state == Sleeping && ps[p].call == InJoin(ps[cur].pid)
    ensures qs[cur].state == Zombie && qs[cur].parent == p
    ensures qs[p].state == Sleeping <==>
              ps[cur].pthread != p && !(p == init && exists c: nat :: c < |ps| && ZombieChild(ps, cur, c))
  {
    hide Parents, Pids;
    assert JoinOk(ps, p, cur);
    assert ExitStep(ps, qs, cur, init, p);
    if c: nat :| c < |ps| && ZombieChild(ps, cur, c) {
      assert InitAwake(ps, qs, init);
    }
  }

  /** `wakeup1`, for one process. */
  function Wake(a: Proc, chan: Chan): (b: Proc) {
    if a.state == Sleeping && a.chan == chan then a.(state := Runnable) else a
  }

  /** How far `exit` has come with handing on the children of `cur`. */
  ghost predicate Exiting(ps: seq<Proc>, qs: seq<Proc>, cur: nat, init: nat, k: nat) {
    && cur < |ps| == |qs| && k <= |ps|
    && (forall i: nat :: i < |ps| ==> ExitingStep(ps, qs, cur, init, k, i))
    && (forall c: nat :: c < k && ZombieChild(ps, cur, c) ==> InitAwake(ps, qs, init))
  }

  ghost predicate ExitingStep(ps: seq<Proc>, qs: seq<Proc>, cur: nat, init: nat, k: nat, i: nat)
    requires cur < |ps| == |qs| && i < |ps| && k <= |ps|
  {
    && Woken(ps[i].(parent := if i < k && ps[i].parent == cur then init else ps[i].parent), qs[i])
    && (ps[i].chan == OnProc(Waker(ps[cur])) ==> qs[i].state != Sleeping)
    && (qs[i].state != ps[i].state ==> WokenBy(ps, cur, init, k, ps[i].chan))
  }

  lemma ExitingNext(ps: seq<Proc>, qs: seq<Proc>, cur: nat, init: nat, k: nat, rs: seq<Proc>)
    requires Exiting(ps, qs, cur, init, k) && k < |ps| == |rs|
    requires forall i: nat :: i < |ps| ==>
               var q := if i == k && qs[k].parent == cur then qs[i].(parent := init) else qs[i];
               rs[i] == if qs[k].parent == cur && qs[k].state == Zombie then Wake(q, OnProc(init)) else q
    ensures Exiting(ps, rs, cur, init, k + 1)
  {
    var k' := k + 1;
    assert ExitingStep(ps, qs, cur, init, k, k);
    forall i: nat | i < |ps|
      ensures ExitingStep(ps, rs, cur, init, k', i)
    {
      assert ExitingStep(ps, qs, cur, init, k, i);
      assert qs[k].parent == cur && qs[k].state == Zombie ==> ZombieChild(ps, cur, k);
    }
    forall c: nat | c < k + 1 && ZombieChild(ps, cur, c)
      ensures InitAwake(ps, rs, init)
    {
      forall i: nat | i < |ps| && ps[i].chan == OnProc(init)
        ensures rs[i].state != Sleeping
      {
        assert ExitingStep(ps, qs, cur, init, k, i);
        assert c < k ==> InitAwake(ps, qs, init);
      }
    }
  }

  lemma ExitingEnd(ps: seq<Proc>, qs: seq<Proc>, cur: nat, init: nat)
    requires Exiting(ps, qs, cur, init, |ps|) && init < |ps| && init != cur && ps[cur].state == Running
    ensures Exited(ps, qs[cur := qs[cur].(state := Zombie)], cur, init)
  {
    var rs := qs[cur := qs[cur].(state := Zombie)];
    assert ExitingStep(ps, qs, cur, init, |ps|, cur);
    forall i: nat | i < |ps| && i != cur
      ensures ExitStep(ps, rs, cur, init, i)
    {
      assert ExitingStep(ps, qs, cur, init, |ps|, i);
    }
    forall c: nat | c < |ps| && ZombieChild(ps, cur, c)
      ensures InitAwake(ps, rs, init)
    {
      assert InitAwake(ps, qs, init);
    }
  }

  // ---------------------------------------------------------------- the code

  class Table {
    const n: nat
    const init: nat
    var procs: seq<Proc>
    var nextpid: nat
    ghost var returned: set<nat>  // pids that `wait` and `join` have returned

    ghost predicate Valid()
      reads this
    {
      && |procs| == n && init < n && Alive(procs[init].state) && procs[init].parent == -1
      && Inv(procs, nextpid, returned)
    }

    /** An empty table, with the first process about to run. */
    constructor (n: nat, init: nat)
      requires init < n
      ensures Valid() && this.n == n && this.init == init && returned == {}
      ensures procs[init] == Proc(Running, 1, -1, -1, false, 1, false, OnOther(0), InOther) && nextpid == 2
      ensures forall i :: 0 <= i < n && i != init ==> procs[i].state == Unused
    {
      this.n, this.init := n, init;
      procs := FirstTable(n, init);
      nextpid := 2;
      returned := {};
      new;
      FirstIsValid(n, init);
    }

    /** `wakeup1`. */
    method Wakeup1(chan: Chan)
      requires |procs| == n
      modifies this`procs
      ensures |procs| == n && forall i :: 0 <= i < n ==> procs[i] == Wake(old(procs)[i], chan)
      ensures forall i :: 0 <= i < n ==>
                procs[i] == if old(procs)[i].state == Sleeping && old(procs)[i].chan == chan
                            then old(procs)[i].(state := Runnable) else old(procs)[i]
    {
      var p := 0;
      while p < n
        invariant p <= n == |procs|
        invariant forall i :: 0 <= i < p ==> procs[i] == Wake(old(procs)[i], chan)
        invariant forall i :: p <= i < n ==> procs[i] == old(procs)[i]
      {
        if procs[p].state == Sleeping && procs[p].chan == chan {
          procs := procs[p := procs[p].(state := Runnable)];
        }
        p := p + 1;
      }
    }

    /** `wakeup`. */
    method Wakeup(chan: Chan)
      requires Valid()
      modifies this`procs
      ensures Valid() && forall i :: 0 <= i < n ==> procs[i] == Wake(old(procs)[i], chan)
    {
      Wakeup1(chan);
      WakingKeeps(old(procs), procs, nextpid, returned);
    }

    /** `exit`; the panic is that `init` exits. */
    method Exit(cur: nat) returns (panic: bool)
      requires Valid() && cur < n && procs[cur].state == Running
      modifies this`procs
      ensures Valid() && (panic <==> cur == init) && (panic ==> procs == old(procs))
      ensures !panic ==> Exited(old(procs), procs, cur, init)
    {
      hide Inv, Exiting, Exited;
      if cur == init {
        return true;
      }
      ghost var ps := procs;
      if procs[cur].isThread {
        Wakeup1(OnProc(procs[cur].pthread));
      } else {
        Wakeup1(OnProc(procs[cur].parent));
      }
      ExitingStart(ps, procs, cur, init);
      var p := 0;
      while p < n
        invariant p <= n == |procs| && Exiting(ps, procs, cur, init, p)
      {
        ghost var qs := procs;
        if procs[p].parent == cur {
          procs := procs[p := procs[p].(parent := init)];
          if procs[p].state == Zombie {
            Wakeup1(OnProc(init));
          }
        }
        ExitingNext(ps, qs, cur, init, p, procs);
        p := p + 1;
      }
      ExitingEnd(ps, procs, cur, init);
      procs := procs[cur := procs[cur].(state := Zombie)];
      ExitKeeps(ps, procs, cur, init, nextpid, returned);
      panic := false;
    }

    /** One round of `wait`: reap a child that has exited, give up if there is no child, or sleep.
        Threads are never reaped. */
    method Wait(cur: nat) returns (r: Outcome, ghost who: nat)
      requires Valid() && cur < n && procs[cur].state == Running
      modifies this`procs, this`returned
      ensures Valid()
      ensures r.Reaped? <==>
                exists c: nat :: c < n && old(procs)[c].parent == cur && !old(procs)[c].isThread && old(procs)[c].state == Zombie
      ensures r.Reaped? ==>
                && who < n && old(procs)[who].parent == cur && !old(procs)[who].isThread && old(procs)[who].state == Zombie
                && (forall c: nat :: c < who && old(procs)[c].parent == cur && !old(procs)[c].isThread ==>
                      old(procs)[c].state != Zombie)
                && r.pid == old(procs)[who].pid
                && r.pid !in old(returned) && returned == old(returned) + {r.pid}
                && procs == old(procs)[who := old(procs)[who].(pid := 0, parent := -1, tgid := 0, killed := false,
                                                               state := Unused)]
      ensures r.NoChild? ==> procs == old(procs) && returned == old(returned)
                             && (procs[cur].killed || forall c: nat :: c < n ==> procs[c].parent != cur || procs[c].isThread)
      ensures r.Slept? ==> exists c: nat :: c < n && old(procs)[c].parent == cur && !old(procs)[c].isThread
      ensures r.Slept? ==> returned == old(returned) && !procs[cur].killed
                           && procs == old(procs)[cur := old(procs)[cur].(state := Sleeping, chan := OnProc(cur), call := InWait)]
    {
      hide NoLostExit, Parents;
      who := 0;
      var havekids := false;
      var p := 0;
      while p < n
        invariant p <= n && procs == old(procs) && returned == old(returned)
        invariant havekids <==> exists c: nat :: c < p && procs[c].parent == cur && !procs[c].isThread
        invariant forall c: nat :: c < p && procs[c].parent == cur && !procs[c].isThread ==> procs[c].state != Zombie
      {
        if procs[p].parent == cur && !procs[p].isThread {
          havekids := true;
          if procs[p].state == Zombie {
            var pid := procs[p].pid;
            ReapKeeps(procs, p, Freed(procs[p]), nextpid, returned);
            procs := procs[p := Freed(procs[p])];
            returned := returned + {pid};
            return Reaped(pid), p;
          }
        }
        p := p + 1;
      }
      if !havekids || procs[cur].killed {
        return NoChild, who;
      }
      WaitSleeps(procs, cur, nextpid, returned);
      procs := procs[cur := procs[cur].(state := Sleeping, chan := OnProc(cur), call := InWait)];
      r := Slept;
    }

    /** One round of `join`: reap the thread if it has exited, fail if it is not a thread of this
        process and group, or sleep. */
    method Join(cur: nat, pid: int) returns (r: Outcome, ghost who: nat)
      requires Valid() && cur < n && procs[cur].state == Running
      modifies this`procs, this`returned
      ensures Valid()
      ensures (exists c: nat :: c < n && Joinable(old(procs)[c], cur, old(procs)[cur].tgid, pid) && old(procs)[c].state == Zombie)
                ==> r.Reaped?
      ensures r.Reaped? ==>
                && who < n && Joinable(old(procs)[who], cur, old(procs)[cur].tgid, pid) && old(procs)[who].state == Zombie
                && r.pid == pid && pid !in old(returned) && returned == old(returned) + {pid}
                && procs == old(procs)[who := old(procs)[who].(pid := 0, parent := -1, tgid := 0, killed := false,
                                                               pthread := -1, state := Unused)]
      ensures r.NoChild? ==> procs == old(procs) && returned == old(returned)
                             && (procs[cur].killed || forall c: nat :: c < n ==> !Joinable(procs[c], cur, procs[cur].tgid, pid))
      ensures r.Slept? ==>
                && returned == old(returned) && !old(procs)[cur].killed
                && who < n && Joinable(old(procs)[who], cur, old(procs)[cur].tgid, pid) && old(procs)[who].state != Zombie
                && procs == old(procs)[cur := old(procs)[cur].(state := Sleeping, chan := OnProc(cur), call := InJoin(pid))]
    {
      hide NoLostExit, Parents;
      who := 0;
      var havekids := false;
      var p := 0;
      while p < n
        invariant p <= n && procs == old(procs) && returned == old(returned)
        invariant !havekids ==> forall c: nat :: c < p ==> procs[c].pid != pid
        invariant havekids ==> who < p && Joinable(procs[who], cur, procs[cur].tgid, pid) && procs[who].state != Zombie
      {
        if procs[p].pid == pid {
          if procs[p].parent != cur || !procs[p].isThread || procs[p].tgid != procs[cur].tgid {
            return NoChild, who;
          }
          havekids := true;
          who := p;
          if procs[p].state == Zombie {
            ReapKeeps(procs, p, Freed(procs[p]).(pthread := -1), nextpid, returned);
            procs := procs[p := Freed(procs[p]).(pthread := -1)];
            returned := returned + {pid};
            return Reaped(pid), who;
          }
        }
        p := p + 1;
      }
      if !havekids || procs[cur].killed {
        return NoChild, who;
      }
      JoinSleeps(procs, cur, who, pid, nextpid, returned);
      procs := procs[cur := procs[cur].(state := Sleeping, chan := OnProc(cur), call := InJoin(pid))];
      r := Slept;
    }

    /** The critical section of `allocproc`: the first free slot, with a new pid, or -1. */
    method Allocproc() returns (np: int)
      requires Valid()
      modifies this`procs, this`nextpid
      ensures Valid() && (np == -1 <==> forall i :: 0 <= i < n ==> old(procs)[i].state != Unused)
      ensures np == -1 ==> procs == old(procs) && nextpid == old(nextpid)
      ensures np != -1 ==>
                && 0 <= np < n && old(procs)[np].state == Unused && nextpid == old(nextpid) + 1
                && procs[np].parent == -1
                && (forall i :: 0 <= i < np ==> old(procs)[i].state != Unused)
                && procs == old(procs)[np := old(procs)[np].(isThread := false, state := Embryo, pid := old(nextpid))]
    {
      np := 0;
      while np < n
        invariant 0 <= np <= n && procs == old(procs) && nextpid == old(nextpid)
        invariant forall i :: 0 <= i < np ==> procs[i].state != Unused
      {
        if procs[np].state == Unused {
          QuietKeeps(procs, np, procs[np].(isThread := false, state := Embryo, pid := nextpid), nextpid, nextpid + 1, returned);
          procs := procs[np := procs[np].(isThread := false, state := Embryo, pid := nextpid)];
          nextpid := nextpid + 1;
          return;
        }
        np := np + 1;
      }
      np := -1;
    }

    /** A new process that could not get its memory. */
    method Unalloc(np: nat)
      requires Valid() && np < n && procs[np].state == Embryo && procs[np].parent == -1
      modifies this`procs
      ensures Valid() && procs == old(procs)[np := old(procs)[np].(state := Unused)]
    {
      QuietKeeps(procs, np, procs[np].(state := Unused), nextpid, nextpid, returned);
      procs := procs[np := procs[np].(state := Unused)];
    }

    /** One store of `fork` or `clone` into the slot it has allocated, made without the lock: the
        parent, once, which may be out of date by now, or any other field but the state. */
    method Store(np: nat, q: Proc)
      requires Valid() && np < n && procs[np].state == Embryo
      requires q == procs[np].(parent := q.parent, tgid := q.tgid, pthread := q.pthread, isThread := q.isThread)
      requires q.parent == procs[np].parent || (procs[np].parent == -1 && -1 <= q.parent < n)
      modifies this`procs
      ensures Valid() && procs == old(procs)[np := q]
    {
      QuietKeeps(procs, np, q, nextpid, nextpid, returned);
      procs := procs[np := q];
    }

    /** The critical section at the end of `fork` and `clone`. */
    method Start(np: nat)
      requires Valid() && np < n && procs[np].state == Embryo && (procs[np].parent == np ==> procs[np].isThread)
      modifies this`procs
      ensures Valid() && procs == old(procs)[np := old(procs)[np].(state := Runnable)]
    {
      QuietKeeps(procs, np, procs[np].(state := Runnable), nextpid, nextpid, returned);
      procs := procs[np := procs[np].(state := Runnable)];
    }

    /** The end of `fork`: the child is this process's, is no thread, and can run.  The table is
        valid after each of the four steps, so others may come between them. */
    method Fork(cur: nat, np: nat)
      requires Valid() && cur < n && np < n && procs[cur].state == Running
      requires procs[np].state == Embryo && procs[np].parent == -1
      modifies this`procs
      ensures Valid()
      ensures procs == old(procs)[np := old(procs)[np].(tgid := old(procs)[np].pid, isThread := false, parent := cur,
                                                        state := Runnable)]
    {
      hide Inv;
      Store(np, procs[np].(tgid := procs[np].pid));
      Store(np, procs[np].(isThread := false));
      Store(np, procs[np].(parent := cur));
      Start(np);
    }

    /** The parent that `clone` is to give the new thread, read without the lock; the fault is a
        null pointer that is followed. */
    method ReadParent(cur: nat, cloneParent: bool) returns (fault: bool, parent: int)
      requires Valid() && cur < n
      ensures fault <==> procs[cur].isThread && cloneParent && procs[cur].parent == -1
      ensures !procs[cur].isThread ==> parent == if cloneParent then procs[cur].parent else cur
      ensures procs[cur].isThread && !cloneParent ==> parent == procs[cur].parent
      ensures procs[cur].isThread && cloneParent && !fault ==>
                0 <= procs[cur].parent < n && parent == procs[procs[cur].parent].parent
      ensures !fault ==> parent == ClonedParent(procs, cur, cloneParent)
    {
      hide Slots, Pids, NoLostExit;
      fault, parent := false, procs[cur].parent;
      if !procs[cur].isThread {
        if !cloneParent {
          parent := cur;
        }
      } else if cloneParent {
        if parent == -1 {
          return true, parent;
        }
        parent := procs[parent].parent;
      }
    }

    /** The end of `clone`, with its flags for the parent and the group.  The table is valid after
        each of the steps, so others may come between them. */
    method Clone(cur: nat, np: nat, cloneParent: bool, cloneThread: bool) returns (fault: bool)
      requires Valid() && cur < n && np < n && procs[cur].state == Running
      requires procs[np].state == Embryo && procs[np].parent == -1
      modifies this`procs
      ensures Valid()
      ensures fault <==> old(procs)[cur].isThread && cloneParent && old(procs)[cur].parent == -1
      ensures fault ==> procs == old(procs)
      ensures !fault ==>
                procs == old(procs)[np := old(procs)[np].(parent := ClonedParent(old(procs), cur, cloneParent),
                                                          tgid := if cloneThread then old(procs)[cur].tgid else old(procs)[cur].pid,
                                                          pthread := cur, isThread := true, state := Runnable)]
    {
      hide Inv;
      var parent;
      fault, parent := ReadParent(cur, cloneParent);
      if fault {
        return;
      }
      ClonedParentOk(procs, cur, cloneParent, nextpid, returned);
      Store(np, procs[np].(parent := parent));
      Store(np, procs[np].(tgid := if cloneThread then procs[cur].tgid else procs[cur].pid));
      Store(np, procs[np].(pthread := cur));
      Store(np, procs[np].(isThread := true));
      Start(np);
    }

    /** `sleep` on anything but a process. */
    method SleepOn(cur: nat, key: nat)
      requires Valid() && cur < n && procs[cur].state == Running
      modifies this`procs
      ensures Valid()
      ensures procs == old(procs)[cur := old(procs)[cur].(state := Sleeping, chan := OnOther(key), call := InOther)]
    {
      QuietKeeps(procs, cur, procs[cur].(state := Sleeping, chan := OnOther(key), call := InOther), nextpid, nextpid, returned);
      procs := procs[cur := procs[cur].(state := Sleeping, chan := OnOther(key), call := InOther)];
    }

    /** The scheduler picks a process, or a running one yields. */
    method Dispatch(p: nat)
      requires Valid() && p < n && (procs[p].state == Runnable || procs[p].state == Running)
      modifies this`procs
      ensures Valid()
      ensures procs == old(procs)[p := old(procs)[p].(state := if old(procs)[p].state == Runnable then Running else Runnable)]
    {
      ghost var q := procs[p].(state := if procs[p].state == Runnable then Running else Runnable);
      QuietKeeps(procs, p, q, nextpid, nextpid, returned);
      procs := procs[p := procs[p].(state := if procs[p].state == Runnable then Running else Runnable)];
    }

    /** `kill`, or with `threads` set `threadkill`: the first process with this pid is marked, and woken
        from any sleep. */
    method Kill(pid: int, threads: bool) returns (r: int, ghost who: nat)
      requires Valid()
      modifies this`procs
      ensures Valid() && (r == 0 || r == -1)
      ensures r == -1 <==> forall i :: 0 <= i < n ==> old(procs)[i].pid != pid || (threads && !old(procs)[i].isThread)
      ensures r == -1 ==> procs == old(procs)
      ensures r == 0 ==>
                && who < n && old(procs)[who].pid == pid && (threads ==> old(procs)[who].isThread)
                && (forall i :: 0 <= i < who ==> old(procs)[i].pid != pid || (threads && !old(procs)[i].isThread))
                && procs[who].killed && procs[who].state != Sleeping
                && (old(procs)[who].state == Sleeping ==> procs[who].state == Runnable)
                && procs == old(procs)[who := old(procs)[who].(killed := true, state := procs[who].state)]
                && (old(procs)[who].state != Sleeping ==> procs[who].state == old(procs)[who].state)
    {
      hide Inv;
      who := 0;
      var p := 0;
      while p < n
        invariant p <= n && procs == old(procs)
        invariant forall i :: 0 <= i < p ==> procs[i].pid != pid || (threads && !procs[i].isThread)
      {
        if procs[p].pid == pid && (threads ==> procs[p].isThread) {
          KillKeeps(procs, p, nextpid, returned);
          procs := procs[p := procs[p].(killed := true)];
          if procs[p].state == Sleeping {
            procs := procs[p := procs[p].(state := Runnable)];
          }
          assert procs == old(procs)[p := Killed(old(procs)[p])];
          return 0, p;
        }
        p := p + 1;
      }
      r := -1;
    }
  }

  /** The table with the first process only. */
  function FirstTable(n: nat, init: nat): (ps: seq<Proc>)
    requires init < n
    ensures |ps| == n
  {
    var empty := Proc(Unused, 0, -1, -1, false, 0, false, OnOther(0), InOther);
    seq(n, i => if i == init then empty.(state := Running, pid := 1, tgid := 1) else empty)
  }

  lemma FirstIsValid(n: nat, init: nat)
    requires init < n
    ensures Inv(FirstTable(n, init), 2, {})
  {
    var ps := FirstTable(n, init);
    assert Slots(ps) && Parents(ps) by { hide Pids, NoLostExit; }
    assert Pids(ps, 2, {}) by { hide Slots, Parents, NoLostExit; }
    assert NoLostExit(ps) by { hide Slots, Parents, Pids; }
  }

  /** A thread that `join` accepts. */
  predicate Joinable(t: Proc, cur: nat, tgid: nat, pid: int) {
    t.pid == pid && t.parent == cur && t.isThread && t.tgid == tgid
  }

  /** The parent that `clone` gives a new thread. */
  function ClonedParent(ps: seq<Proc>, cur: nat, cloneParent: bool): (p: int)
    requires cur < |ps| && (ps[cur].isThread && cloneParent ==> 0 <= ps[cur].parent < |ps|)
  {
    if !ps[cur].isThread then if cloneParent then ps[cur].parent else cur
    else if cloneParent then ps[ps[cur].parent].parent else ps[cur].parent
  }

  lemma ClonedParentOk(ps: seq<Proc>, cur: nat, cloneParent: bool, nextpid: nat, returned: set<nat>)
    requires Inv(ps, nextpid, returned) && cur < |ps|
    requires ps[cur].isThread && cloneParent ==> ps[cur].parent != -1
    ensures ps[cur].isThread && cloneParent ==> 0 <= ps[cur].parent < |ps|
    ensures -1 <= ClonedParent(ps, cur, cloneParent) < |ps|
  {
    hide Slots, Pids, NoLostExit;
  }

  function Killed(p: Proc): (q: Proc) {
    p.(killed := true, state := if p.state == Sleeping then Runnable else p.state)
  }

  lemma KillKeeps(ps: seq<Proc>, i: nat, nextpid: nat, returned: set<nat>)
    requires Inv(ps, nextpid, returned) && i < |ps|
    ensures Inv(ps[i := Killed(ps[i])], nextpid, returned)
  {
    var qs := ps[i := Killed(ps[i])];
    forall p: nat, c: nat | p < |qs| && c < |qs|
      ensures WaitOk(qs, p, c) && JoinOk(qs, p, c)
    {
      assert WaitOk(ps, p, c) && JoinOk(ps, p, c);
    }
  }

  /** A thread cloned by a thread can be lost: the process that joins it sleeps on although it has
      exited, since `exit` wakes the thread that cloned it. */
  method LostJoin() returns (t: Table)
    ensures t.Valid() && t.n == 3 && |t.procs| == 3
    ensures t.procs[0].state == Sleeping && t.procs[0].call == InJoin(t.procs[2].pid)
    ensures t.procs[2].state == Zombie && t.procs[2].parent == 0 && t.procs[2].pthread == 1
  {
    hide Inv;
    t := new Table(3, 0);
    var a := t.Allocproc();
    var f := t.Clone(0, 1, false, true);
    t.Dispatch(1);
    var b := t.Allocproc();
    f := t.Clone(1, 2, false, true);
    assert Joinable(t.procs[2], 0, t.procs[0].tgid, 3);
    var r, who := t.Join(0, 3);
    t.Dispatch(2);
    ghost var ps := t.procs;
    var panic := t.Exit(2);
    assert ExitStep(ps, t.procs, 2, 0, 0);
    assert forall c: nat :: c < 3 ==> !ZombieChild(ps, 2, c);
  }

  /** A slot after its process was reaped. */
  function Freed(p: Proc): (q: Proc) {
    p.(pid := 0, parent := -1, tgid := 0, killed := false, state := Unused)
  }

  lemma ExitingStart(ps: seq<Proc>, qs: seq<Proc>, cur: nat, init: nat)
    requires cur < |ps| == |qs| && forall i: nat :: i < |ps| ==> qs[i] == Wake(ps[i], OnProc(Waker(ps[cur])))
    ensures Exiting(ps, qs, cur, init, 0)
  {
  }
}
