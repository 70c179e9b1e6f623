/** bio.c: the buffer cache, with `iderw` as in memide.c.

    Each method is one critical section, or one stretch of code that a client runs while it owns
    a buffer's sleep-lock, so clients may interleave their calls in any order that the
    preconditions allow.  Buffers are numbered from 0 to n - 1 and n is `head`. */
module BufferCache {
  import opened Bytes
  import opened Common
  import opened Ring

  /** A device and a block number on it. */
  datatype Key = Key(dev: nat, block: nat)

  datatype Buf = Buf(key: Key, refcnt: int, valid: bool, dirty: bool, data: Block)

  /** A thread that has called `bget` for a block and has not given its reference back. */
  datatype User = User(tid: nat, key: Key)

  /** What all buffers hold before they are first used. */
  const ZeroKey := Key(0, 0)

  // ---------------------------------------------------------------- what the cache keeps

  /** A buffer is counted once for each of its users, and holds the block they all asked for; the
      owner of its sleep-lock is one of them. */
  ghost predicate Counted(b: Buf, holder: Option<nat>, users: multiset<User>) {
    && b.refcnt == |users| && (forall u :: u in users ==> u.key == b.key)
    && (holder.Some? ==> User(holder.value, b.key) in users)
  }

  /** No block is in two buffers. */
  ghost predicate Unique(bufs: seq<Buf>) {
    forall i, j :: 0 <= i < j < |bufs| && bufs[i].key == bufs[j].key ==> bufs[i].key == ZeroKey
  }

  /** Some buffer holds newer data for the block than the disk does. */
  ghost predicate DirtyFor(bufs: seq<Buf>, k: Key) {
    exists i :: 0 <= i < |bufs| && bufs[i].key == k && bufs[i].dirty
  }

  /** A buffer whose data was read or has been handed in holds the latest data for its block. */
  ghost predicate Fresh(b: Buf, touched: bool, latest: map<Key, Block>) {
    && (b.dirty ==> b.valid)
    && (b.valid && !touched && b.key in latest ==> b.data == latest[b.key])
  }

  /** Unless a dirty buffer holds the block, the disk has the latest data. */
  ghost predicate DiskFresh(bufs: seq<Buf>, disk: map<Key, Block>, latest: map<Key, Block>) {
    && disk.Keys == latest.Keys && ZeroKey !in disk
    && forall k :: k in disk && !DirtyFor(bufs, k) ==> disk[k] == latest[k]
  }

  /** Free and not waiting for its transaction to commit. */
  predicate Recyclable(b: Buf) {
    b.refcnt == 0 && !b.dirty
  }

  /** Along the ring, the time of the last release goes down. */
  ghost predicate ByRelease(ring: seq<nat>, stamp: seq<nat>, clock: nat) {
    && (forall i :: 0 <= i < |ring| ==> ring[i] < |stamp| && stamp[ring[i]] < clock)
    && (forall i, j :: 0 <= i < j < |ring| ==> stamp[ring[i]] > stamp[ring[j]])
  }

  ghost predicate CountsOf(n: nat, bufs: seq<Buf>, holder: seq<Option<nat>>, users: seq<multiset<User>>,
                           touched: seq<bool>) {
    && |bufs| == |holder| == |users| == |touched| == n
    && (forall i :: 0 <= i < n ==> Counted(bufs[i], holder[i], users[i]))
    && (forall i :: 0 <= i < n && touched[i] ==> holder[i].Some?)
  }

  ghost predicate ContentsOf(n: nat, bufs: seq<Buf>, touched: seq<bool>, disk: map<Key, Block>, latest: map<Key,
                             Block>) {
    && |bufs| == |touched| == n
    && Unique(bufs) && DiskFresh(bufs, disk, latest)
    && (forall i :: 0 <= i < n ==> Fresh(bufs[i], touched[i], latest))
  }

  /** What the counts say of one buffer. */
  lemma CountAt(n: nat, bufs: seq<Buf>, holder: seq<Option<nat>>, users: seq<multiset<User>>, touched: seq<bool>,
                b: nat)
    requires CountsOf(n, bufs, holder, users, touched) && b < n
    ensures |bufs| == |holder| == |users| == |touched| == n
    ensures Counted(bufs[b], holder[b], users[b]) && (touched[b] ==> holder[b].Some?)
    ensures bufs[b := bufs[b]] == bufs && holder[b := holder[b]] == holder
    ensures users[b := users[b]] == users && touched[b := touched[b]] == touched
  {
  }

  lemma CountsKept(n: nat, bufs: seq<Buf>, holder: seq<Option<nat>>, users: seq<multiset<User>>, touched: seq<bool>,
                   b: nat, x: Buf, h: Option<nat>, us: multiset<User>, t: bool)
    requires CountsOf(n, bufs, holder, users, touched) && b < n && Counted(x, h, us) && (t ==> h.Some?)
    ensures CountsOf(n, bufs[b := x], holder[b := h], users[b := us], touched[b := t])
  {
  }

  /** One buffer is replaced, and at most the data of its block with it. */
  ghost predicate BufChange(bufs: seq<Buf>, b: nat, x: Buf, disk: map<Key, Block>, latest: map<Key, Block>,
                            disk': map<Key, Block>, latest': map<Key, Block>)
    requires b < |bufs|
  {
    && disk'.Keys == disk.Keys == latest.Keys == latest'.Keys
    && (forall k :: k in disk && k != x.key ==> disk'[k] == disk[k] && latest'[k] == latest[k])
    && (if x.key == bufs[b].key
        then x.key in disk && !x.dirty ==> disk'[x.key] == latest'[x.key]
        else disk' == disk && latest' == latest && !bufs[b].dirty && forall i :: 0 <= i < |bufs| ==> bufs[i].key != x.key)
  }

  lemma ContentsKept(n: nat, bufs: seq<Buf>, touched: seq<bool>, disk: map<Key, Block>, latest: map<Key, Block>,
                     b: nat, x: Buf, t: bool, disk': map<Key, Block>, latest': map<Key, Block>)
    requires ContentsOf(n, bufs, touched, disk, latest) && b < n
    requires BufChange(bufs, b, x, disk, latest, disk', latest') && Fresh(x, t, latest')
    ensures ContentsOf(n, bufs[b := x], touched[b := t], disk', latest')
  {
    var bufs' := bufs[b := x];
    forall k | k in disk' && !DirtyFor(bufs', k)
      ensures disk'[k] == latest'[k]
    {
      assert bufs'[b] == x;
      if k != x.key || x.key != bufs[b].key {
        assert !DirtyFor(bufs, k) by {
          forall i | 0 <= i < n && i != b
            ensures bufs'[i] == bufs[i]
          {
          }
        }
      }
    }
    forall i | 0 <= i < n
      ensures Fresh(bufs'[i], touched[b := t][i], latest')
    {
      assert Fresh(bufs[i], touched[i], latest);
    }
  }

  lemma SizesOf(n: nat, bufs: seq<Buf>, touched: seq<bool>, disk: map<Key, Block>, latest: map<Key, Block>)
    requires ContentsOf(n, bufs, touched, disk, latest)
    ensures |bufs| == n
  {
  }

  /** The block of a clean buffer is up to date on disk. */
  lemma CleanIsFresh(n: nat, bufs: seq<Buf>, touched: seq<bool>, disk: map<Key, Block>, latest: map<Key, Block>, b: nat)
    requires ContentsOf(n, bufs, touched, disk, latest) && b < n
    ensures |bufs| == |touched| == n && disk.Keys == latest.Keys && Fresh(bufs[b], touched[b], latest)
    ensures bufs[b].key in disk && !bufs[b].dirty ==> disk[bufs[b].key] == latest[bufs[b].key]
  {
    if bufs[b].key in disk && !bufs[b].dirty {
      assert !DirtyFor(bufs, bufs[b].key) by {
        forall i | 0 <= i < n && bufs[i].key == bufs[b].key
          ensures i == b
        {
        }
      }
    }
  }

  // ---------------------------------------------------------------- the order of release

  /** The first recyclable buffer from the end of the ring is the one least recently released. */
  lemma OldestOf(n: nat, ring: seq<nat>, stamp: seq<nat>, clock: nat, bufs: seq<Buf>, i: nat)
    requires AllOn(n, ring) && |stamp| == |bufs| == n && ByRelease(ring, stamp, clock) && i < n
    requires forall j :: i < j < n ==> !Recyclable(bufs[ring[j]])
    ensures forall c :: 0 <= c < n && Recyclable(bufs[c]) ==> stamp[ring[i]] <= stamp[c]
  {
    forall c: nat | c < n && Recyclable(bufs[c])
      ensures stamp[ring[i]] <= stamp[c]
    {
      var j := Place(ring, c);
    }
  }

  /** What a full walk over the ring has not found is in no buffer. */
  lemma NowhereOn(n: nat, ring: seq<nat>, bufs: seq<Buf>, k: Key)
    requires AllOn(n, ring) && |bufs| == n
    requires forall j :: 0 <= j < n ==> ring[j] < n && bufs[ring[j]].key != k
    ensures forall c :: 0 <= c < n ==> bufs[c].key != k
  {
    forall c: nat | c < n
      ensures bufs[c].key != k
    {
      var j := Place(ring, c);
    }
  }

  lemma NoneRecyclable(n: nat, ring: seq<nat>, bufs: seq<Buf>)
    requires AllOn(n, ring) && |bufs| == n
    requires forall j :: 0 <= j < n ==> ring[j] < n && !Recyclable(bufs[ring[j]])
    ensures forall c :: 0 <= c < n ==> !Recyclable(bufs[c])
  {
    forall c: nat | c < n
      ensures !Recyclable(bufs[c])
    {
      var j := Place(ring, c);
    }
  }

  /** Moving a released buffer to the front keeps the ring in order of release. */
  lemma Released(n: nat, ring: seq<nat>, stamp: seq<nat>, clock: nat, i: nat)
    requires AllOn(n, ring) && Distinct(ring) && |stamp| == n && ByRelease(ring, stamp, clock) && i < n
    ensures AllOn(n, [ring[i]] + Without(ring, i))
    ensures ByRelease([ring[i]] + Without(ring, i), stamp[ring[i] := clock], clock + 1)
  {
    var r := [ring[i]] + Without(ring, i);
    forall b: nat | b < n
      ensures b in r
    {
      var j := Place(ring, b);
      assert r[if j == i then 0 else if j < i then j + 1 else j] == b;
    }
  }

  // ---------------------------------------------------------------- the code

  /** A buffer that nobody uses has no references. */
  lemma NoUsers(n: nat, bufs: seq<Buf>, holder: seq<Option<nat>>, users: seq<multiset<User>>, touched: seq<bool>)
    requires CountsOf(n, bufs, holder, users, touched)
    ensures |bufs| == |users| == n && forall i :: 0 <= i < n && users[i] == multiset{} ==> bufs[i].refcnt == 0
  {
  }

  /** `binit` starts with a head that is linked to itself. */
  lemma NoNodes(n: nat, next: seq<nat>, prev: seq<nat>)
    requires |next| == |prev| == n + 1 && next[n] == prev[n] == n
    ensures Linked(n, next, prev, [])
  {
  }

  lemma InOrder(n: nat, ring: seq<nat>)
    requires |ring| == n && forall i :: 0 <= i < n ==> ring[i] == n - 1 - i
    ensures AllOn(n, ring) && ByRelease(ring, seq(n, i => i), n)
  {
    forall c: nat | c < n
      ensures c in ring
    {
      assert ring[n - 1 - c] == c;
    }
  }

  class BCache {
    const n: nat
    var next: seq<nat>
    var prev: seq<nat>
    var bufs: seq<Buf>
    var holder: seq<Option<nat>>        // the owner of each sleep-lock
    var disk: map<Key, Block>
    ghost var ring: seq<nat>
    ghost var users: seq<multiset<User>>
    ghost var touched: seq<bool>        // changed by its owner since it was read or handed in
    ghost var latest: map<Key, Block>   // the data last given to `bwrite` or `log_write`
    ghost var stamp: seq<nat>           // when its reference count last became 0
    ghost var clock: nat

    ghost predicate Rings()
      reads this`next, this`prev, this`ring, this`stamp, this`clock
    {
      && Linked(n, next, prev, ring) && |next| == n + 1 && AllOn(n, ring)
      && |stamp| == n && ByRelease(ring, stamp, clock)
    }

    ghost predicate Valid()
      reads this
    {
      && Rings() && CountsOf(n, bufs, holder, users, touched)
      && ContentsOf(n, bufs, touched, disk, latest)
    }

    /** `binit`, on a disk whose contents are `d`. */
    constructor (n: nat, d: map<Key, Block>)
      requires ZeroKey !in d
      ensures Valid() && this.n == n && disk == latest == d
      ensures forall i :: 0 <= i < n ==> bufs[i].refcnt == 0 && !bufs[i].dirty && !bufs[i].valid
    {
      this.n := n;
      next := seq(n + 1, _ => n);
      prev := seq(n + 1, _ => n);
      bufs := seq(n, _ => Buf(ZeroKey, 0, false, false, []));
      holder := seq(n, _ => None);
      disk, latest := d, d;
      ring := [];
      users := seq(n, _ => multiset{});
      touched := seq(n, _ => false);
      stamp := seq(n, i => i);
      clock := n;
      new;
      hide Linked, AllOn;
      NoNodes(n, next, prev);
      var b := 0;
      while b < n
        invariant b <= n && |next| == n + 1 && Linked(n, next, prev, ring) && |ring| == b
        invariant forall i :: 0 <= i < b ==> ring[i] == b - 1 - i
        modifies this`next, this`prev, this`ring
      {
        PushFront(n, next, prev, ring, b);
        next := next[b := next[n]];
        prev := prev[b := n];
        prev := prev[next[n] := b];
        next := next[n := b];
        ring := [b] + ring;
        b := b + 1;
      }
      InOrder(n, ring);
    }

    /** The first loop of `bget`: the buffer of block `k`, or `n` if it is not cached. */
    method FindCached(k: Key) returns (b: nat)
      requires Valid()
      ensures b <= n == |bufs| && (b < n ==> bufs[b].key == k)
      ensures b == n ==> forall i :: 0 <= i < n ==> bufs[i].key != k
    {
      hide Linked, AllOn, ByRelease, CountsOf, ContentsOf;
      SizesOf(n, bufs, touched, disk, latest);
      RingSizes(n, next, prev, ring);
      b := next[n];
      ghost var i := 1;
      FollowNext(n, next, prev, ring, 0);
      while b != n
        invariant 1 <= i <= n + 1 && b == Node(n, ring, i)
        invariant forall j :: 0 <= j < i - 1 ==> ring[j] < n && bufs[ring[j]].key != k
        decreases n + 1 - i
      {
        OnRing(n, next, prev, ring, i);
        if bufs[b].key == k {
          return;
        }
        FollowNext(n, next, prev, ring, i);
        b := next[b];
        i := i + 1;
      }
      OnRing(n, next, prev, ring, i);
      NowhereOn(n, ring, bufs, k);
    }

    /** The second loop of `bget`: the free, clean buffer least recently released, or `n` if there is
        none. */
    method FindOldest() returns (b: nat)
      requires Valid()
      ensures b <= n == |bufs| == |stamp|
      ensures b < n ==> bufs[b].refcnt == 0 && !bufs[b].dirty
      ensures b < n ==> forall i :: 0 <= i < n && bufs[i].refcnt == 0 && !bufs[i].dirty ==> stamp[b] <= stamp[i]
      ensures b == n ==> forall i :: 0 <= i < n ==> bufs[i].refcnt != 0 || bufs[i].dirty
    {
      hide Linked, AllOn, ByRelease, CountsOf, ContentsOf;
      SizesOf(n, bufs, touched, disk, latest);
      RingSizes(n, next, prev, ring);
      FollowPrev(n, next, prev, ring, n + 1);
      b := prev[n];
      ghost var i: nat := n;
      while b != n
        invariant 0 <= i <= n && b == Node(n, ring, i)
        invariant forall j :: i <= j < n ==> ring[j] < n && !Recyclable(bufs[ring[j]])
        decreases i
      {
        OnRing(n, next, prev, ring, i);
        if bufs[b].refcnt == 0 && !bufs[b].dirty {
          OldestOf(n, ring, stamp, clock, bufs, i - 1);
          return;
        }
        FollowPrev(n, next, prev, ring, i);
        b := prev[b];
        i := i - 1;
      }
      OnRing(n, next, prev, ring, i);
      NoneRecyclable(n, ring, bufs);
    }

    /** The critical section of `bget`: the buffer of the block, with one reference more.  A miss
        recycles the free, clean buffer least recently released; None is the panic that there
        is none. */
    method Bget(tid: nat, k: Key) returns (r: Option<nat>)
      requires Valid()
      modifies this`bufs, this`users
      ensures Valid()
      ensures r.None? <==>
                forall i :: 0 <= i < n ==> old(bufs)[i].key != k && (old(bufs)[i].refcnt != 0 || old(bufs)[i].dirty)
      ensures (exists i :: 0 <= i < n && old(users)[i] == multiset{} && !old(bufs)[i].dirty) ==> r.Some?
      ensures r.None? ==> bufs == old(bufs) && users == old(users)
      ensures r.Some? ==>
                var b := r.value;
                && b < n && users == old(users)[b := old(users)[b] + multiset{User(tid, k)}]
                && (if old(bufs)[b].key == k
                    then bufs == old(bufs)[b := old(bufs)[b].(refcnt := old(bufs)[b].refcnt + 1)]
                    else && bufs == old(bufs)[b := Buf(k, 1, false, false, old(bufs)[b].data)]
                         && (forall i :: 0 <= i < n ==> old(bufs)[i].key != k)
                         && old(bufs)[b].refcnt == 0 && !old(bufs)[b].dirty
                         && forall i :: 0 <= i < n && old(bufs)[i].refcnt == 0 && !old(bufs)[i].dirty ==> stamp[b] <= stamp[i])
    {
      hide Linked, AllOn, ByRelease, CountsOf, ContentsOf, Counted;
      NoUsers(n, bufs, holder, users, touched);
      var b := FindCached(k);
      if b != n {
        Hit(tid, b);
        return Some(b);
      }
      b := FindOldest();
      if b != n {
        Recycle(tid, k, b);
        return Some(b);
      }
      r := None;
    }

    /** `bget` when the block is cached. */
    method Hit(tid: nat, b: nat)
      requires Valid() && b < n
      modifies this`bufs, this`users
      ensures Valid()
      ensures bufs == old(bufs)[b := old(bufs)[b].(refcnt := old(bufs)[b].refcnt + 1)]
      ensures users == old(users)[b := old(users)[b] + multiset{User(tid, old(bufs)[b].key)}]
    {
      hide Rings, CountsOf, ContentsOf;
      CountAt(n, bufs, holder, users, touched, b);
      ghost var x := bufs[b].(refcnt := bufs[b].refcnt + 1);
      CountsKept(n, bufs, holder, users, touched, b, x, holder[b], users[b] + multiset{User(tid, bufs[b].key)}, touched[b]);
      CleanIsFresh(n, bufs, touched, disk, latest, b);
      ContentsKept(n, bufs, touched, disk, latest, b, x, touched[b], disk, latest);
      users := users[b := users[b] + multiset{User(tid, bufs[b].key)}];
      bufs := bufs[b := bufs[b].(refcnt := bufs[b].refcnt + 1)];
    }

    /** `bget` when the block is not cached and `b` is free. */
    method Recycle(tid: nat, k: Key, b: nat)
      requires Valid() && b < n && Recyclable(bufs[b]) && forall i :: 0 <= i < n ==> bufs[i].key != k
      modifies this`bufs, this`users
      ensures Valid()
      ensures bufs == old(bufs)[b := Buf(k, 1, false, false, old(bufs)[b].data)]
      ensures users == old(users)[b := old(users)[b] + multiset{User(tid, k)}]
    {
      hide Rings, CountsOf, ContentsOf;
      CountAt(n, bufs, holder, users, touched, b);
      CleanIsFresh(n, bufs, touched, disk, latest, b);
      assert users[b] == multiset{};
      ghost var x := Buf(k, 1, false, false, bufs[b].data);
      ContentsKept(n, bufs, touched, disk, latest, b, x, touched[b], disk, latest);
      CountsKept(n, bufs, holder, users, touched, b, x, holder[b], users[b] + multiset{User(tid, k)}, touched[b]);
      users := users[b := users[b] + multiset{User(tid, k)}];
      bufs := bufs[b := Buf(k, 1, false, false, bufs[b].data)];
    }

    /** `acquiresleep` at the end of `bget`, when the lock is free.  The buffer still holds the
        block that was asked for, whatever happened since. */
    method AcquireSleep(tid: nat, k: Key, b: nat)
      requires Valid() && b < n && User(tid, k) in users[b] && holder[b].None?
      modifies this`holder
      ensures Valid() && holder == old(holder)[b := Some(tid)]
      ensures bufs[b].key == k && (bufs[b].valid && k in latest ==> bufs[b].data == latest[k])
    {
      hide Rings, CountsOf, ContentsOf;
      CountAt(n, bufs, holder, users, touched, b);
      CleanIsFresh(n, bufs, touched, disk, latest, b);
      CountsKept(n, bufs, holder, users, touched, b, bufs[b], Some(tid), users[b], touched[b]);
      holder := holder[b := Some(tid)];
    }

    /** `iderw` of memide.c, with the disk as a map. */
    method Iderw(b: nat) returns (panic: bool)
      requires b < |bufs| == |holder|
      modifies this`bufs, this`disk
      ensures var x := old(bufs)[b];
              && (panic <==> holder[b].None? || (x.valid && !x.dirty) || x.key !in old(disk))
              && (panic ==> bufs == old(bufs) && disk == old(disk))
              && (!panic && x.dirty ==>
                    disk == old(disk)[x.key := x.data] && bufs == old(bufs)[b := x.(dirty := false, valid := true)])
              && (!panic && !x.dirty ==>
                    disk == old(disk) && bufs == old(bufs)[b := x.(data := disk[x.key], valid := true)])
    {
      if holder[b].None? || (bufs[b].valid && !bufs[b].dirty) || bufs[b].key !in disk {
        return true;
      }
      if bufs[b].dirty {
        bufs := bufs[b := bufs[b].(dirty := false)];
        disk := disk[bufs[b].key := bufs[b].data];
      } else {
        bufs := bufs[b := bufs[b].(data := disk[bufs[b].key])];
      }
      bufs := bufs[b := bufs[b].(valid := true)];
      panic := false;
    }

    /** The rest of `bread`, by the owner of the buffer: its data are the latest for its block. */
    method Bread(tid: nat, b: nat) returns (panic: bool)
      requires Valid() && b < n && holder[b] == Some(tid) && bufs[b].key in disk
      modifies this`bufs, this`disk
      ensures !panic && Valid() && disk == old(disk)
      ensures bufs == old(bufs)[b := old(bufs)[b].(valid := true, data := bufs[b].data)]
      ensures old(bufs)[b].valid ==> bufs[b].data == old(bufs)[b].data
      ensures bufs[b].key in latest && (!touched[b] || !old(bufs)[b].valid ==> bufs[b].data == latest[bufs[b].key])
    {
      hide Rings, CountsOf, ContentsOf;
      CountAt(n, bufs, holder, users, touched, b);
      CleanIsFresh(n, bufs, touched, disk, latest, b);
      panic := false;
      if !bufs[b].valid {
        ghost var x := bufs[b].(data := disk[bufs[b].key], valid := true);
        ContentsKept(n, bufs, touched, disk, latest, b, x, touched[b], disk, latest);
        CountsKept(n, bufs, holder, users, touched, b, x, holder[b], users[b], touched[b]);
        panic := Iderw(b);
      }
    }

    /** The owner changes the data. */
    method Change(tid: nat, b: nat, data: Block)
      requires Valid() && b < n && holder[b] == Some(tid)
      modifies this`bufs, this`touched
      ensures Valid()
      ensures bufs == old(bufs)[b := old(bufs)[b].(data := data)] && touched == old(touched)[b := true]
    {
      hide Rings, CountsOf, ContentsOf;
      CountAt(n, bufs, holder, users, touched, b);
      CleanIsFresh(n, bufs, touched, disk, latest, b);
      ContentsKept(n, bufs, touched, disk, latest, b, bufs[b].(data := data), true, disk, latest);
      CountsKept(n, bufs, holder, users, touched, b, bufs[b].(data := data), holder[b], users[b], true);
      bufs := bufs[b := bufs[b].(data := data)];
      touched := touched[b := true];
    }

    /** `bwrite`: the data are the latest for the block, and on disk. */
    method Bwrite(tid: nat, b: nat) returns (panic: bool)
      requires Valid() && b < n
      modifies this`bufs, this`disk, this`latest, this`touched
      ensures Valid() && (panic <==> holder[b] != Some(tid) || bufs[b].key !in old(disk))
      ensures panic ==> bufs == old(bufs) && disk == old(disk) && latest == old(latest) && touched == old(touched)
      ensures !panic ==>
                var x := old(bufs)[b];
                && bufs == old(bufs)[b := x.(dirty := false, valid := true)]
                && disk == old(disk)[x.key := x.data] && latest == old(latest)[x.key := x.data]
                && touched == old(touched)[b := false]
    {
      hide Rings, CountsOf, ContentsOf, DirtyFor;
      CountAt(n, bufs, holder, users, touched, b);
      CleanIsFresh(n, bufs, touched, disk, latest, b);
      if holder[b] != Some(tid) || bufs[b].key !in disk {
        return true;
      }
      ghost var x := bufs[b];
      ContentsKept(n, bufs, touched, disk, latest, b, x.(dirty := false, valid := true), false,
                   disk[x.key := x.data], latest[x.key := x.data]);
      CountsKept(n, bufs, holder, users, touched, b, x.(dirty := false, valid := true), holder[b], users[b], false);
      bufs := bufs[b := bufs[b].(dirty := true)];
      panic := Iderw(b);
      assert bufs == old(bufs)[b := x.(dirty := false, valid := true)];
      latest := latest[x.key := x.data];
      touched := touched[b := false];
    }

    /** What `log_write` does to the buffer: it stays in the cache until its transaction commits,
        and its data are the latest for the block. */
    method LogWrite(tid: nat, b: nat)
      requires Valid() && b < n && holder[b] == Some(tid) && bufs[b].valid && bufs[b].key in disk
      modifies this`bufs, this`latest, this`touched
      ensures Valid()
      ensures bufs == old(bufs)[b := old(bufs)[b].(dirty := true)]
      ensures latest == old(latest)[bufs[b].key := bufs[b].data] && touched == old(touched)[b := false]
    {
      hide Rings, CountsOf, ContentsOf;
      CountAt(n, bufs, holder, users, touched, b);
      CleanIsFresh(n, bufs, touched, disk, latest, b);
      ContentsKept(n, bufs, touched, disk, latest, b, bufs[b].(dirty := true), false, disk, latest[bufs[b].key := bufs[b].data]);
      CountsKept(n, bufs, holder, users, touched, b, bufs[b].(dirty := true), holder[b], users[b], false);
      latest := latest[bufs[b].key := bufs[b].data];
      bufs := bufs[b := bufs[b].(dirty := true)];
      touched := touched[b := false];
    }

    /** `releasesleep` at the start of `brelse`, by an owner whose changes were handed in. */
    method ReleaseSleep(tid: nat, b: nat)
      requires Valid() && b < n && holder[b] == Some(tid) && !touched[b]
      modifies this`holder
      ensures Valid() && holder == old(holder)[b := None]
    {
      hide Rings, CountsOf, ContentsOf;
      CountAt(n, bufs, holder, users, touched, b);
      CountsKept(n, bufs, holder, users, touched, b, bufs[b], None, users[b], touched[b]);
      holder := holder[b := None];
    }

    /** The critical section of `brelse`: with its last reference gone the buffer is the most
        recently released. */
    method Unref(tid: nat, k: Key, b: nat)
      requires Valid() && b < n && User(tid, k) in users[b] && holder[b] != Some(tid)
      modifies this`bufs, this`users, this`next, this`prev, this`ring, this`stamp, this`clock
      ensures Valid()
      ensures bufs == old(bufs)[b := old(bufs)[b].(refcnt := old(bufs)[b].refcnt - 1)]
      ensures users == old(users)[b := old(users)[b] - multiset{User(tid, k)}]
      ensures bufs[b].refcnt > 0 ==> next == old(next) && prev == old(prev) && ring == old(ring) && stamp == old(stamp)
      ensures bufs[b].refcnt == 0 ==>
                && b in old(ring) && ring == [b] + Without(old(ring), Place(old(ring), b))
                && stamp == old(stamp)[b := old(clock)] && clock == old(clock) + 1
    {
      hide Rings, CountsOf, ContentsOf, Without;
      CountAt(n, bufs, holder, users, touched, b);
      CleanIsFresh(n, bufs, touched, disk, latest, b);
      ContentsKept(n, bufs, touched, disk, latest, b, bufs[b].(refcnt := bufs[b].refcnt - 1), touched[b], disk, latest);
      CountsKept(n, bufs, holder, users, touched, b, bufs[b].(refcnt := bufs[b].refcnt - 1), holder[b],
                 users[b] - multiset{User(tid, k)}, touched[b]);
      users := users[b := users[b] - multiset{User(tid, k)}];
      bufs := bufs[b := bufs[b].(refcnt := bufs[b].refcnt - 1)];
      if bufs[b].refcnt == 0 {
        MoveToFront(b);
      }
    }

    /** Unlink `b` and put it at the front. */
    method MoveToFront(b: nat)
      requires Rings() && b < n
      modifies this`next, this`prev, this`ring, this`stamp, this`clock
      ensures Rings() && b in old(ring) && ring == [b] + Without(old(ring), Place(old(ring), b))
      ensures stamp == old(stamp)[b := old(clock)] && clock == old(clock) + 1
    {
      hide Linked, AllOn, ByRelease, Without, Distinct;
      RingSizes(n, next, prev, ring);
      IsOn(n, next, prev, ring, b);
      ghost var i := Place(ring, b);
      Unlink(n, next, prev, ring, i);
      Released(n, ring, stamp, clock, i);
      prev := prev[next[b] := prev[b]];
      next := next[prev[b] := next[b]];
      PushFront(n, next, prev, Without(ring, i), b);
      next := next[b := next[n]];
      prev := prev[b := n];
      prev := prev[next[n] := b];
      next := next[n := b];
      ring := [b] + Without(ring, i);
      stamp := stamp[b := clock];
      clock := clock + 1;
    }
  }
}
