/** The descriptor propagation of sysfile.c.

    `table[p][fd]` is the open file of process `p` at descriptor `fd`, and `links[p]` its array
    `ofile_clone`, with -1 for null.  A table of width 1 with `cwd_clone` for links is the current
    directories.  Files and inodes are known by numbers, 0 for null. */
module Descriptors {
  import opened Common

  type Table = seq<seq<nat>>
  type Links = seq<seq<int>>

  ghost predicate Fits(links: Links, t: Table, width: nat) {
    && |links| == |t|
    && (forall p :: 0 <= p < |t| ==> |t[p]| == width)
    && (forall p, i :: 0 <= p < |links| && 0 <= i < |links[p]| ==> -1 <= links[p][i] < |t|)
  }

  function Set(t: Table, p: nat, fd: nat, v: nat): (r: Table)
    requires p < |t| && fd < |t[p]|
    ensures |r| == |t| && forall q :: 0 <= q < |t| ==> |r[q]| == |t[q]|
    ensures r[p][fd] == v && forall x :: 0 <= x < |t[p]| && x != fd ==> r[p][x] == t[p][x]
    ensures forall q :: 0 <= q < |t| && q != p ==> r[q] == t[q]
  {
    var row: seq<nat> := t[p];
    t[p := row[fd := v]]
  }

  /** Process `q` is a peer that `p` passes values on to. */
  predicate IsPeer(q: int, p: nat) {
    q != -1 && q != p
  }

  /** A chain of `k` links leads from `p` to `q`. */
  ghost predicate Chain(links: Links, p: nat, q: nat, k: nat)
    decreases k
  {
    if k == 0 then p == q
    else p < |links| && exists i: nat :: i < |links[p]| && LinkChain(links, p, q, k, i)
  }

  ghost predicate LinkChain(links: Links, p: nat, q: nat, k: nat, i: nat)
    requires p < |links| && i < |links[p]| && k > 0
    decreases k, 0
  {
    links[p][i] >= 0 && Chain(links, links[p][i], q, k - 1)
  }

  ghost predicate Reachable(links: Links, p: nat, q: nat) {
    exists k: nat :: Chain(links, p, q, k)
  }

  lemma ReachNext(links: Links, p: nat, i: nat, q: nat)
    requires p < |links| && i < |links[p]| && links[p][i] >= 0 && Reachable(links, links[p][i], q)
    ensures Reachable(links, p, q)
  {
    var k: nat :| Chain(links, links[p][i], q, k);
    assert LinkChain(links, p, q, k + 1, i);
    assert Chain(links, p, q, k + 1);
  }

  /** The processes whose entry does not hold the new value yet. */
  ghost function Unset(t: Table, fd: nat, v: nat, n: nat): (s: set<nat>)
    requires n <= |t| && forall p :: 0 <= p < |t| ==> fd < |t[p]|
    ensures forall p: nat :: p in s <==> p < n && t[p][fd] != v
  {
    if n == 0 then {} else Unset(t, fd, v, n - 1) + if t[n - 1][fd] != v then {n - 1} else {}
  }

  /** Only entries `fd` of processes reachable from `p` changed, each to `v`. */
  ghost predicate Spread(links: Links, t: Table, u: Table, p: nat, fd: nat, v: nat, width: nat) {
    && Fits(links, t, width) && Fits(links, u, width) && fd < width
    && (forall q: nat, d: nat :: q < |t| && d < width && d != fd ==> u[q][d] == t[q][d])
    && (forall q: nat :: q < |t| ==> u[q][fd] == t[q][fd] || (u[q][fd] == v && Reachable(links, p, q)))
  }

  lemma SpreadStart(links: Links, t: Table, p: nat, fd: nat, v: nat, width: nat)
    requires Fits(links, t, width) && fd < width
    ensures Spread(links, t, t, p, fd, v, width)
  {
  }

  lemma SpreadTrans(links: Links, t: Table, u: Table, w: Table, p: nat, fd: nat, v: nat, width: nat)
    requires Spread(links, t, u, p, fd, v, width) && Spread(links, u, w, p, fd, v, width)
    ensures Spread(links, t, w, p, fd, v, width)
  {
  }

  /** Setting a peer's entry and passing the value on from there. */
  lemma SpreadVia(links: Links, t: Table, w: Table, p: nat, i: nat, fd: nat, v: nat, width: nat)
    requires Fits(links, t, width) && fd < width && p < |links| && i < |links[p]| && links[p][i] >= 0
    requires var q := links[p][i]; Spread(links, Set(t, q, fd, v), w, q, fd, v, width)
    ensures Spread(links, t, w, p, fd, v, width)
  {
    var q := links[p][i];
    assert Chain(links, q, q, 0);
    forall r: nat | r < |t| && Reachable(links, q, r)
      ensures Reachable(links, p, r)
    {
      ReachNext(links, p, i, r);
    }
  }

  /** Every process whose entry changed has passed the value on to its first peer. */
  ghost predicate PassedOn(links: Links, t: Table, u: Table, fd: nat, v: nat) {
    && |u| == |t| == |links| && (forall q :: 0 <= q < |t| ==> fd < |t[q]| == |u[q]|)
    && forall q: nat :: q < |t| && u[q][fd] != t[q][fd] ==> FirstHas(links[q], q, u, fd, v)
  }

  lemma PassedOnStart(links: Links, t: Table, fd: nat, v: nat, width: nat)
    requires Fits(links, t, width) && fd < width
    ensures PassedOn(links, t, t, fd, v)
  {
  }

  /** A peer was set and passed the value on, and so did all it reached. */
  lemma PassedOnVia(links: Links, t: Table, u: Table, w: Table, q: nat, fd: nat, v: nat, p: nat, width: nat)
    requires PassedOn(links, t, u, fd, v) && q < |t| && u[q][fd] != v
    requires Spread(links, Set(u, q, fd, v), w, p, fd, v, width) && PassedOn(links, Set(u, q, fd, v), w, fd, v)
    requires FirstHas(links[q], q, w, fd, v)
    ensures PassedOn(links, t, w, fd, v)
  {
    var s := Set(u, q, fd, v);
    forall r: nat | r < |t| && w[r][fd] != t[r][fd]
      ensures FirstHas(links[r], r, w, fd, v)
    {
      if r != q && w[r][fd] == s[r][fd] {
        assert FirstHas(links[r], r, u, fd, v);
        forall i: nat | IsFirst(links[r], r, i)
          ensures 0 <= links[r][i] < |w| && w[links[r][i]][fd] == v
        {
          assert u[links[r][i]][fd] == v;
        }
      }
    }
  }

  /** The i-th link is the first that is neither null nor the process itself. */
  ghost predicate IsFirst(ls: seq<int>, p: nat, i: nat) {
    && i < |ls| && ls[i] != -1 && ls[i] != p
    && forall j :: 0 <= j < i ==> ls[j] == -1 || ls[j] == p
  }

  /** The first peer holds the value. */
  ghost predicate FirstHas(ls: seq<int>, p: nat, t: Table, fd: nat, v: nat) {
    forall i: nat :: IsFirst(ls, p, i) ==> 0 <= ls[i] < |t| && fd < |t[ls[i]]| && t[ls[i]][fd] == v
  }

  /** If the first peers among the first `i` links hold the value, so does the first peer. */
  lemma PeersSet(ls: seq<int>, p: nat, t: Table, fd: nat, v: nat, i: nat)
    requires i <= |ls| && (forall j :: 0 <= j < |ls| ==> -1 <= ls[j] < |t|)
    requires (forall q :: 0 <= q < |t| ==> fd < |t[q]|)
    requires forall j :: 0 <= j < i && IsPeer(ls[j], p) ==> t[ls[j]][fd] == v
    requires i == |ls| || exists j :: 0 <= j < i && IsPeer(ls[j], p)
    ensures FirstHas(ls, p, t, fd, v)
  {
    forall k: nat | IsFirst(ls, p, k)
      ensures 0 <= ls[k] < |t| && t[ls[k]][fd] == v
    {
      assert k < i by {
        if i < |ls| {
          var j :| 0 <= j < i && IsPeer(ls[j], p);
        }
      }
    }
  }

  /** A process fewer lacks the value. */
  lemma Smaller(t: Table, q: nat, fd: nat, v: nat, before: set<nat>)
    requires (forall p :: 0 <= p < |t| ==> fd < |t[p]|) && q < |t| && t[q][fd] != v
    requires Unset(t, fd, v, |t|) <= before
    ensures var u := Set(t, q, fd, v);
            Unset(u, fd, v, |u|) < before && |Unset(u, fd, v, |u|)| < |before|
  {
    var u := Set(t, q, fd, v);
    assert q in Unset(t, fd, v, |t|) && q !in Unset(u, fd, v, |u|);
    assert Unset(u, fd, v, |u|) <= before - {q};
    SubsetCount(Unset(u, fd, v, |u|), before - {q});
  }

  /** Spreading leaves no more processes without the value. */
  lemma SpreadUnset(links: Links, t: Table, u: Table, p: nat, fd: nat, v: nat, width: nat)
    requires Spread(links, t, u, p, fd, v, width)
    ensures Unset(u, fd, v, |u|) <= Unset(t, fd, v, |t|)
    ensures forall q: nat :: q < |t| && t[q][fd] == v ==> u[q][fd] == v
  {
  }

  class CloneTable {
    const width: nat
    const links: Links
    var table: Table

    ghost predicate Valid()
      reads this
    {
      Fits(links, table, width)
    }

    /** `open_ofile_clone`, `close_ofile_clone` with `v` null, and `pwd_clone`: the value is passed on
        along the links, whatever cycles they have.  The first peer holds it at the end, and so does
        the first peer of every process that was changed. */
    method Propagate(p: nat, fd: nat, v: nat)
      requires Valid() && p < |table| && fd < width
      modifies this`table
      ensures Valid() && Spread(links, old(table), table, p, fd, v, width)
      ensures FirstHas(links[p], p, table, fd, v) && PassedOn(links, old(table), table, fd, v)
      decreases |Unset(table, fd, v, |table|)|
    {
      hide Spread, Unset, FirstHas, PassedOn;
      PassedOnStart(links, table, fd, v, width);
      SpreadStart(links, table, p, fd, v, width);
      var i := 0;
      ghost var before := Unset(table, fd, v, |table|);
      while i < |links[p]|
        invariant i <= |links[p]| && Valid() && Spread(links, old(table), table, p, fd, v, width)
        invariant Unset(table, fd, v, |table|) <= before && PassedOn(links, old(table), table, fd, v)
        invariant forall j :: 0 <= j < i && IsPeer(links[p][j], p) ==> table[links[p][j]][fd] == v
      {
        var q := links[p][i];
        if IsPeer(q, p) {
          if table[q][fd] == v {
            PeersSet(links[p], p, table, fd, v, i + 1);
            return;
          }
          ghost var t := table;
          table := Set(table, q, fd, v);
          Smaller(t, q, fd, v, before);
          Propagate(q, fd, v);
          SpreadUnset(links, Set(t, q, fd, v), table, q, fd, v, width);
          PassedOnVia(links, old(table), t, table, q, fd, v, q, width);
          SpreadVia(links, t, table, p, i, fd, v, width);
          SpreadTrans(links, old(table), t, table, p, fd, v, width);
        }
        i := i + 1;
      }
      PeersSet(links[p], p, table, fd, v, i);
    }

    /** `fdalloc`: the lowest free descriptor of `p` gets the file, and so do its peers; -1 if none is
        free. */
    method Fdalloc(p: nat, f: nat) returns (fd: int)
      requires Valid() && p < |table| && f != 0
      modifies this`table
      ensures Valid() && (fd == -1 <==> forall d :: 0 <= d < width ==> old(table)[p][d] != 0)
      ensures fd == -1 ==> table == old(table)
      ensures fd != -1 ==>
                && 0 <= fd < width && old(table)[p][fd] == 0 && (forall d :: 0 <= d < fd ==> old(table)[p][d] != 0)
                && table[p][fd] == f && Passed(links, old(table), table, p, fd, f, width)
    {
      fd := 0;
      while fd < width
        invariant 0 <= fd <= width && table == old(table) && forall d :: 0 <= d < fd ==> table[p][d] != 0
      {
        if table[p][fd] == 0 {
          table := Set(table, p, fd, f);
          Propagate(p, fd, f);
          return;
        }
        fd := fd + 1;
      }
      fd := -1;
    }

    /** `sys_close`: the descriptor of `p` is closed, and that of its peers; -1 if it is not open. */
    method Close(p: nat, fd: int) returns (r: int)
      requires Valid() && p < |table|
      modifies this`table
      ensures Valid() && (r == -1 <==> fd < 0 || fd >= width || old(table)[p][fd] == 0)
      ensures r == -1 ==> table == old(table)
      ensures r != -1 ==> r == 0 && table[p][fd] == 0 && Passed(links, old(table), table, p, fd, 0, width)
    {
      if fd < 0 || fd >= width || table[p][fd] == 0 {
        return -1;
      }
      table := Set(table, p, fd, 0);
      Propagate(p, fd, 0);
      r := 0;
    }

    /** The end of `sys_chdir`: the peers first, unless nothing changes, and then `p` itself. */
    method Chdir(p: nat, ip: nat)
      requires Valid() && width == 1 && p < |table|
      modifies this`table
      ensures Valid() && table[p][0] == ip
      ensures forall q: nat :: q < |table| ==> table[q][0] == old(table)[q][0] || (table[q][0] == ip && Reachable(links, p, q))
      ensures old(table)[p][0] != ip ==> FirstHas(links[p], p, table, 0, ip)
    {
      if table[p][0] != ip {
        Propagate(p, 0, ip);
      }
      assert Chain(links, p, p, 0);
      table := Set(table, p, 0, ip);
    }
  }

  /** Process `p` got value `v` at `fd` and passed it on. */
  ghost predicate Passed(links: Links, t: Table, u: Table, p: nat, fd: nat, v: nat, width: nat) {
    && Fits(links, t, width) && p < |t| && fd < width
    && Spread(links, Set(t, p, fd, v), u, p, fd, v, width)
    && FirstHas(links[p], p, u, fd, v) && PassedOn(links, Set(t, p, fd, v), u, fd, v)
  }

  /** A process and its one thread with shared files: each is the other's only peer. */
  ghost predicate Pair(links: Links, a: nat, b: nat) {
    && a < |links| && b < |links| && a != b && b in links[a] && a in links[b]
    && (forall i :: 0 <= i < |links[a]| ==> links[a][i] == -1 || links[a][i] == a || links[a][i] == b)
    && (forall i :: 0 <= i < |links[b]| ==> links[b][i] == -1 || links[b][i] == b || links[b][i] == a)
  }

  /** A list of links with a peer has a first one. */
  lemma HasFirst(ls: seq<int>, p: nat, j: nat) returns (i: nat)
    requires j < |ls| && ls[j] != -1 && ls[j] != p
    ensures IsFirst(ls, p, i)
  {
    i := 0;
    while ls[i] == -1 || ls[i] == p
      invariant i <= j && forall k :: 0 <= k < i ==> ls[k] == -1 || ls[k] == p
      decreases j - i
    {
      i := i + 1;
    }
  }

  /** Whatever one of the pair opens, duplicates or closes, their tables stay equal, and no other
      process sees a difference. */
  lemma PairStaysEqual(links: Links, t: Table, u: Table, a: nat, b: nat, fd: nat, v: nat, width: nat)
    requires Pair(links, a, b) && Passed(links, t, u, a, fd, v, width) && t[a] == t[b]
    ensures u[a] == u[b] && u[a] == t[a][fd := v]
    ensures forall q: nat :: q < |t| && q != a && q != b ==> u[q] == t[q]
  {
    var s := Set(t, a, fd, v);
    forall q: nat | q < |t| && Reachable(links, a, q)
      ensures q == a || q == b
    {
      var k: nat :| Chain(links, a, q, k);
      PairClosed(links, a, b, a, q, k);
    }
    var j :| 0 <= j < |links[a]| && links[a][j] == b;
    var i := HasFirst(links[a], a, j);
    assert links[a][i] == b && u[b][fd] == v;
    forall d: nat | d < width
      ensures u[a][d] == (if d == fd then v else t[a][d]) && u[b][d] == u[a][d]
    {
    }
    forall q: nat | q < |t| && q != a && q != b
      ensures u[q] == t[q]
    {
      forall d: nat | d < width
        ensures u[q][d] == t[q][d]
      {
      }
    }
  }

  lemma {:induction false} PairClosed(links: Links, a: nat, b: nat, p: nat, q: nat, k: nat)
    requires Pair(links, a, b) && (p == a || p == b) && Chain(links, p, q, k)
    ensures q == a || q == b
    decreases k
  {
    if k > 0 {
      var i: nat :| i < |links[p]| && LinkChain(links, p, q, k, i);
      PairClosed(links, a, b, links[p][i], q, k - 1);
    }
  }
}
