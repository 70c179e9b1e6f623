/** Page directories, page tables and the pages they own.

    A physical page is known by its number.  `tables` holds the pages in use as directories or
    page tables, `data` those in use as user memory, and `owner` says what each allocated page
    is for.  A virtual page is known by its directory index and its table index. */
module PageModel {
  import opened Bytes

  const NENT: nat := 1024         // NPDENTRIES and NPTENTRIES
  const UDIR: nat := 512          // directory entries below KERNBASE
  const PGSIZE: nat := 4096
  const USER: nat := UDIR * NENT  // virtual pages below KERNBASE

  datatype Entry = Entry(ppn: nat, p: bool, w: bool, u: bool)

  const ZeroEntry := Entry(0, false, false, false)

  /** What an allocated page is: a directory, the table of one of its entries, the memory at one
      of its user pages, or something that page tables know nothing of. */
  datatype Owner = Dir | Tab(dir: nat, i: nat) | User(dir: nat, i: nat, j: nat) | Loose

  datatype Mem = Mem(tables: map<nat, seq<Entry>>, data: map<nat, seq<byte>>, owner: map<nat, Owner>)

  /** The virtual page with directory index `i` and table index `j`. */
  function Vpn(i: nat, j: nat): (v: nat) {
    i * NENT + j
  }

  predicate IsTable(m: Mem, t: nat) {
    t in m.tables && |m.tables[t]| == NENT
  }

  ghost predicate IsDir(m: Mem, d: nat) {
    d in m.owner && m.owner[d] == Dir && IsTable(m, d)
  }

  /** An entry of a directory, or of a table. */
  function At(m: Mem, t: nat, i: nat): (e: Entry) {
    if IsTable(m, t) && i < NENT then m.tables[t][i] else ZeroEntry
  }

  /** The entry that the hardware finds for a virtual page. */
  function Lookup(m: Mem, d: nat, i: nat, j: nat): (e: Entry) {
    if At(m, d, i).p then At(m, At(m, d, i).ppn, j) else ZeroEntry
  }

  /** A page is what its owner says it is. */
  ghost predicate OwnerOk(m: Mem, x: nat)
    requires x in m.owner
  {
    match m.owner[x]
    case Dir => IsTable(m, x)
    case Tab(d, i) => IsDir(m, d) && i < NENT && At(m, d, i).p && At(m, d, i).ppn == x && IsTable(m, x)
    case User(d, i, j) => IsDir(m, d) && i < UDIR && j < NENT && Lookup(m, d, i, j).p && Lookup(m, d, i, j).ppn == x && x in m.data
    case Loose => true
  }

  /** A page table belongs to its entry, and the entry leaves the permissions to the page table. */
  ghost predicate PdeOk(m: Mem, d: nat, i: nat) {
    At(m, d, i).p ==>
      At(m, d, i).ppn in m.owner && m.owner[At(m, d, i).ppn] == Tab(d, i) && At(m, d, i).w && At(m, d, i).u
  }

  ghost predicate PteOk(m: Mem, d: nat, i: nat, j: nat) {
    if Lookup(m, d, i, j).p then Lookup(m, d, i, j).ppn in m.owner && m.owner[Lookup(m, d, i, j).ppn] == User(d, i, j)
    else Lookup(m, d, i, j) == ZeroEntry
  }

  /** Every page that a directory uses, for a table or for user memory, belongs to that one entry. */
  ghost predicate Good(m: Mem) {
    && (forall x :: x in m.owner ==> OwnerOk(m, x))
    && (forall d, i: nat :: IsDir(m, d) && i < NENT ==> PdeOk(m, d, i))
    && (forall d, i: nat, j: nat :: IsDir(m, d) && i < UDIR && j < NENT ==> PteOk(m, d, i, j))
  }

  /** The page belongs to directory `d`, or is `d`. */
  predicate Mine(o: Owner, x: nat, d: nat) {
    match o
    case Dir => x == d
    case Tab(e, _) => e == d
    case User(e, _, _) => e == d
    case Loose => false
  }

  // ---------------------------------------------------------------- what an operation may change

  /** Page `x` has the owner and the data it had, and unless it is a table of `d`, the entries. */
  ghost predicate SamePage(m: Mem, w: Mem, d: nat, x: nat)
    requires x in m.owner
  {
    && x in w.owner && w.owner[x] == m.owner[x]
    && (x in m.data ==> x in w.data && w.data[x] == m.data[x])
    && (x in m.tables && !(x == d || (m.owner[x].Tab? && m.owner[x].dir == d)) ==> x in w.tables && w.tables[x] == m.tables[x])
  }

  /** From `m` to `w`, directory `d` was given page tables and nothing else. */
  ghost predicate Grown(m: Mem, w: Mem, d: nat) {
    && IsDir(m, d) && IsDir(w, d)
    && (forall x :: x in m.owner ==> SamePage(m, w, d, x))
    && (forall x :: x in w.owner && x !in m.owner ==> w.owner[x].Tab? && w.owner[x].dir == d)
  }

  lemma TablesOf(m: Mem, e: nat, i: nat)
    requires Good(m) && IsDir(m, e) && At(m, e, i).p
    ensures i < NENT && At(m, e, i).ppn in m.owner && m.owner[At(m, e, i).ppn] == Tab(e, i)
    ensures IsTable(m, At(m, e, i).ppn)
  {
    assert PdeOk(m, e, i);
    assert OwnerOk(m, At(m, e, i).ppn);
  }

  // ---------------------------------------------------------------- a new page table

  function Zeros(): (t: seq<Entry>)
    ensures |t| == NENT && forall i :: 0 <= i < NENT ==> t[i] == ZeroEntry
  {
    seq(NENT, _ => ZeroEntry)
  }

  function AddTable(m: Mem, d: nat, i: nat, t: nat): (w: Mem)
    requires IsTable(m, d) && i < NENT
  {
    m.(tables := m.tables[t := Zeros()][d := m.tables[d][i := Entry(t, true, true, true)]], owner := m.owner[t := Tab(d, i)])
  }

  lemma AddTableAt(m: Mem, d: nat, i: nat, t: nat, e: nat, k: nat)
    requires Good(m) && IsDir(m, d) && i < NENT && t !in m.owner && t !in m.tables
    ensures var w := AddTable(m, d, i, t);
            At(w, e, k) == if e == t then ZeroEntry else if e == d && k == i then Entry(t, true, true, true) else At(m, e, k)
  {
  }

  lemma AddTableLookup(m: Mem, d: nat, i: nat, t: nat, e: nat, k: nat, j: nat)
    requires Good(m) && IsDir(m, d) && i < NENT && !At(m, d, i).p && t !in m.owner && t !in m.tables && IsDir(m, e)
    ensures Lookup(AddTable(m, d, i, t), e, k, j) == Lookup(m, e, k, j)
  {
    AddTableAt(m, d, i, t, e, k);
    if At(m, e, k).p {
      TablesOf(m, e, k);
      AddTableAt(m, d, i, t, At(m, e, k).ppn, j);
    } else {
      AddTableAt(m, d, i, t, t, j);
    }
  }

  lemma AddTableKeeps(m: Mem, d: nat, i: nat, t: nat)
    requires Good(m) && IsDir(m, d) && i < NENT && !At(m, d, i).p && t !in m.owner && t !in m.tables && t !in m.data
    ensures var w := AddTable(m, d, i, t);
            Good(w) && Grown(m, w, d) && forall k: nat, j: nat :: Lookup(w, d, k, j) == Lookup(m, d, k, j)
  {
    var w := AddTable(m, d, i, t);
    forall x | x in w.owner
      ensures OwnerOk(w, x)
    {
      if x != t {
        assert OwnerOk(m, x);
        AddTableOwner(m, d, i, t, x);
      } else {
        AddTableAt(m, d, i, t, d, i);
      }
    }
    forall e, k: nat | IsDir(w, e) && k < NENT
      ensures PdeOk(w, e, k)
    {
      assert PdeOk(m, e, k);
      AddTableAt(m, d, i, t, e, k);
    }
    forall e, k: nat, j: nat | IsDir(w, e) && k < UDIR && j < NENT
      ensures PteOk(w, e, k, j)
    {
      assert PteOk(m, e, k, j);
      AddTableLookup(m, d, i, t, e, k, j);
    }
    forall k: nat, j: nat
      ensures Lookup(w, d, k, j) == Lookup(m, d, k, j)
    {
      AddTableLookup(m, d, i, t, d, k, j);
    }
  }

  lemma AddTableOwner(m: Mem, d: nat, i: nat, t: nat, x: nat)
    requires Good(m) && IsDir(m, d) && i < NENT && !At(m, d, i).p && t !in m.owner && t !in m.tables
    requires x in m.owner && OwnerOk(m, x)
    ensures x in AddTable(m, d, i, t).owner && OwnerOk(AddTable(m, d, i, t), x)
  {
    match m.owner[x] {
      case Dir =>
      case Tab(e, k) => AddTableAt(m, d, i, t, e, k);
      case User(e, k, j) => AddTableLookup(m, d, i, t, e, k, j);
      case Loose =>
    }
  }

  // ---------------------------------------------------------------- one entry of a page table

  function PutPte(m: Mem, d: nat, i: nat, j: nat, e: Entry): (w: Mem)
    requires At(m, d, i).p && IsTable(m, At(m, d, i).ppn) && j < NENT
  {
    var t := At(m, d, i).ppn;
    m.(tables := m.tables[t := m.tables[t][j := e]])
  }

  /** A page table of `d` that can be written. */
  ghost predicate HasTable(m: Mem, d: nat, i: nat) {
    Good(m) && IsDir(m, d) && i < NENT && At(m, d, i).p && IsTable(m, At(m, d, i).ppn)
  }

  lemma PutPteAt(m: Mem, d: nat, i: nat, j: nat, e: Entry, t: nat, k: nat)
    requires HasTable(m, d, i) && j < NENT
    ensures At(PutPte(m, d, i, j, e), t, k) == if t == At(m, d, i).ppn && k == j then e else At(m, t, k)
  {
  }

  lemma PutPteLookup(m: Mem, d: nat, i: nat, j: nat, e: Entry, f: nat, k: nat, l: nat)
    requires HasTable(m, d, i) && j < NENT && IsDir(m, f)
    ensures Lookup(PutPte(m, d, i, j, e), f, k, l) == if f == d && k == i && l == j then e else Lookup(m, f, k, l)
  {
    TablesOf(m, d, i);
    PutPteAt(m, d, i, j, e, f, k);
    if At(m, f, k).p {
      TablesOf(m, f, k);
      PutPteAt(m, d, i, j, e, At(m, f, k).ppn, l);
    }
  }

  lemma PutPteDirs(m: Mem, d: nat, i: nat, j: nat, e: Entry, f: nat, k: nat)
    requires HasTable(m, d, i) && j < NENT
    ensures IsDir(PutPte(m, d, i, j, e), f) <==> IsDir(m, f)
    ensures IsDir(m, f) ==> At(PutPte(m, d, i, j, e), f, k) == At(m, f, k)
  {
    TablesOf(m, d, i);
    PutPteAt(m, d, i, j, e, f, k);
  }

  // ---------------------------------------------------------------- mapping a user page

  /** Page `x` becomes the memory at one user page of `d`. */
  ghost function UserMap(m: Mem, d: nat, i: nat, j: nat, x: nat, w: bool, u: bool): (r: Mem)
    requires HasTable(m, d, i) && j < NENT
  {
    PutPte(m, d, i, j, Entry(x, true, w, u)).(owner := m.owner[x := User(d, i, j)])
  }

  ghost predicate CanMap(m: Mem, d: nat, i: nat, j: nat, x: nat) {
    && HasTable(m, d, i) && i < UDIR && j < NENT && !Lookup(m, d, i, j).p
    && x in m.owner && m.owner[x] == Loose && x in m.data && x !in m.tables
  }

  lemma UserMapLookup(m: Mem, d: nat, i: nat, j: nat, x: nat, w: bool, u: bool, f: nat, k: nat, l: nat)
    requires CanMap(m, d, i, j, x)
    ensures var r := UserMap(m, d, i, j, x, w, u);
            && (IsDir(r, f) <==> IsDir(m, f))
            && (IsDir(m, f) ==> At(r, f, k) == At(m, f, k)
                                && Lookup(r, f, k, l) == if f == d && k == i && l == j then Entry(x, true, w, u) else Lookup(m, f, k, l))
  {
    var p := PutPte(m, d, i, j, Entry(x, true, w, u));
    var r := UserMap(m, d, i, j, x, w, u);
    PutPteDirs(m, d, i, j, Entry(x, true, w, u), f, k);
    assert forall t, n: nat :: At(r, t, n) == At(p, t, n);
    if IsDir(m, f) { PutPteLookup(m, d, i, j, Entry(x, true, w, u), f, k, l); }
  }

  lemma UserMapKeeps(m: Mem, d: nat, i: nat, j: nat, x: nat, w: bool, u: bool)
    requires CanMap(m, d, i, j, x)
    ensures Good(UserMap(m, d, i, j, x, w, u))
  {
    var r := UserMap(m, d, i, j, x, w, u);
    forall y | y in r.owner
      ensures OwnerOk(r, y)
    {
      UserMapOwner(m, d, i, j, x, w, u, y);
    }
    forall f, k: nat | IsDir(r, f) && k < NENT
      ensures PdeOk(r, f, k)
    {
      UserMapLookup(m, d, i, j, x, w, u, f, k, 0);
      assert PdeOk(m, f, k);
    }
    forall f, k: nat, l: nat | IsDir(r, f) && k < UDIR && l < NENT
      ensures PteOk(r, f, k, l)
    {
      UserMapLookup(m, d, i, j, x, w, u, f, k, l);
      assert PteOk(m, f, k, l);
    }
  }

  lemma UserMapOwner(m: Mem, d: nat, i: nat, j: nat, x: nat, w: bool, u: bool, y: nat)
    requires CanMap(m, d, i, j, x) && y in UserMap(m, d, i, j, x, w, u).owner
    ensures OwnerOk(UserMap(m, d, i, j, x, w, u), y)
  {
    if y == x {
      UserMapLookup(m, d, i, j, x, w, u, d, i, j);
    } else {
      assert OwnerOk(m, y);
      match m.owner[y] {
        case Dir =>
        case Tab(f, k) => UserMapLookup(m, d, i, j, x, w, u, f, k, 0);
        case User(f, k, l) => UserMapLookup(m, d, i, j, x, w, u, f, k, l);
        case Loose =>
      }
    }
  }

  // ---------------------------------------------------------------- mapping a kernel page

  lemma KernelMapKeeps(m: Mem, d: nat, i: nat, j: nat, e: Entry)
    requires HasTable(m, d, i) && UDIR <= i && j < NENT
    ensures Good(PutPte(m, d, i, j, e)) && Grown(m, PutPte(m, d, i, j, e), d)
  {
    var r := PutPte(m, d, i, j, e);
    PutPteDirs(m, d, i, j, e, d, 0);
    TablesOf(m, d, i);
    forall y | y in r.owner
      ensures OwnerOk(r, y)
    {
      KernelMapOwner(m, d, i, j, e, y);
    }
    forall f, k: nat | IsDir(r, f) && k < NENT
      ensures PdeOk(r, f, k)
    {
      PutPteDirs(m, d, i, j, e, f, k);
      assert PdeOk(m, f, k);
    }
    forall f, k: nat, l: nat | IsDir(r, f) && k < UDIR && l < NENT
      ensures PteOk(r, f, k, l)
    {
      PutPteDirs(m, d, i, j, e, f, k);
      PutPteLookup(m, d, i, j, e, f, k, l);
      assert PteOk(m, f, k, l);
    }
  }

  lemma KernelMapOwner(m: Mem, d: nat, i: nat, j: nat, e: Entry, y: nat)
    requires HasTable(m, d, i) && UDIR <= i && j < NENT && y in m.owner
    ensures OwnerOk(PutPte(m, d, i, j, e), y)
  {
    assert OwnerOk(m, y);
    match m.owner[y] {
      case Dir =>
      case Tab(f, k) => PutPteDirs(m, d, i, j, e, f, k);
      case User(f, k, l) =>
        PutPteDirs(m, d, i, j, e, f, k);
        PutPteLookup(m, d, i, j, e, f, k, l);
      case Loose =>
    }
  }

  // ---------------------------------------------------------------- giving pages back

  /** The pages of `s` are free again. */
  ghost function Drop(m: Mem, s: set<nat>): (w: Mem) {
    Mem(m.tables - s, m.data - s, m.owner - s)
  }

  /** The user page is unmapped and its page freed. */
  ghost function UserUnmap(m: Mem, d: nat, i: nat, j: nat): (r: Mem)
    requires HasTable(m, d, i) && j < NENT
  {
    Drop(PutPte(m, d, i, j, ZeroEntry), {Lookup(m, d, i, j).ppn})
  }

  ghost predicate CanUnmap(m: Mem, d: nat, i: nat, j: nat) {
    HasTable(m, d, i) && i < UDIR && j < NENT && Lookup(m, d, i, j).p
  }

  lemma UnmapOwner(m: Mem, d: nat, i: nat, j: nat)
    requires CanUnmap(m, d, i, j)
    ensures var x := Lookup(m, d, i, j).ppn;
            x in m.owner && m.owner[x] == User(d, i, j) && x != d && x != At(m, d, i).ppn
  {
    assert PteOk(m, d, i, j);
    TablesOf(m, d, i);
  }

  lemma UnmapLookup(m: Mem, d: nat, i: nat, j: nat, f: nat, k: nat, l: nat)
    requires CanUnmap(m, d, i, j)
    ensures var r := UserUnmap(m, d, i, j);
            && (IsDir(r, f) <==> IsDir(m, f))
            && (IsDir(m, f) ==> At(r, f, k) == At(m, f, k)
                                && Lookup(r, f, k, l) == if f == d && k == i && l == j then ZeroEntry else Lookup(m, f, k, l))
  {
    var x := Lookup(m, d, i, j).ppn;
    var p := PutPte(m, d, i, j, ZeroEntry);
    var r := UserUnmap(m, d, i, j);
    UnmapOwner(m, d, i, j);
    PutPteDirs(m, d, i, j, ZeroEntry, f, k);
    assert forall t, n: nat :: t != x ==> At(r, t, n) == At(p, t, n);
    if IsDir(m, f) {
      PutPteLookup(m, d, i, j, ZeroEntry, f, k, l);
      if At(m, f, k).p { TablesOf(m, f, k); }
    }
  }

  lemma UnmapKeeps(m: Mem, d: nat, i: nat, j: nat)
    requires CanUnmap(m, d, i, j)
    ensures Good(UserUnmap(m, d, i, j))
  {
    var r := UserUnmap(m, d, i, j);
    forall y | y in r.owner
      ensures OwnerOk(r, y)
    {
      UnmapKept(m, d, i, j, y);
    }
    forall f, k: nat | IsDir(r, f) && k < NENT
      ensures PdeOk(r, f, k)
    {
      UnmapLookup(m, d, i, j, f, k, 0);
      UnmapOwner(m, d, i, j);
      assert PdeOk(m, f, k);
    }
    forall f, k: nat, l: nat | IsDir(r, f) && k < UDIR && l < NENT
      ensures PteOk(r, f, k, l)
    {
      UnmapLookup(m, d, i, j, f, k, l);
      UnmapOwner(m, d, i, j);
      assert PteOk(m, f, k, l);
    }
  }

  lemma UnmapKept(m: Mem, d: nat, i: nat, j: nat, y: nat)
    requires CanUnmap(m, d, i, j) && y in UserUnmap(m, d, i, j).owner
    ensures y in m.owner && OwnerOk(UserUnmap(m, d, i, j), y) && SamePage(m, UserUnmap(m, d, i, j), d, y)
  {
    UnmapOwner(m, d, i, j);
    assert OwnerOk(m, y);
    TablesOf(m, d, i);
    match m.owner[y] {
      case Dir => UnmapLookup(m, d, i, j, y, 0, 0);
      case Tab(f, k) => UnmapLookup(m, d, i, j, f, k, 0);
      case User(f, k, l) => UnmapLookup(m, d, i, j, f, k, l);
      case Loose =>
    }
  }

  // ---------------------------------------------------------------- shrinking

  predicate InRange(o: Owner, d: nat, lo: nat, hi: nat) {
    o.User? && o.dir == d && lo <= Vpn(o.i, o.j) < hi
  }

  /** From `m` to `w`, the user pages of `d` from `lo` up to `hi` were unmapped and freed, and
      nothing else happened. */
  ghost predicate Shrunk(m: Mem, w: Mem, d: nat, lo: nat, hi: nat) {
    && Good(m) && Good(w) && IsDir(m, d) && IsDir(w, d)
    && (forall i: nat :: At(w, d, i) == At(m, d, i))
    && (forall i: nat, j: nat :: Lookup(w, d, i, j) == ShrunkEntry(m, d, i, j, lo, hi))
    && (forall x :: x in m.owner ==> if InRange(m.owner[x], d, lo, hi) then x !in w.owner else SamePage(m, w, d, x))
    && (forall x :: x in w.owner ==> x in m.owner)
  }

  function ShrunkEntry(m: Mem, d: nat, i: nat, j: nat, lo: nat, hi: nat): (e: Entry) {
    if i < UDIR && j < NENT && lo <= Vpn(i, j) < hi then ZeroEntry else Lookup(m, d, i, j)
  }

  lemma ShrunkStart(m: Mem, d: nat, lo: nat)
    requires Good(m) && IsDir(m, d)
    ensures Shrunk(m, m, d, lo, lo)
  {
  }

  lemma VpnArith(i: nat, j: nat, k: nat, l: nat)
    requires j < NENT && l < NENT
    ensures Vpn(i, j) == Vpn(k, l) <==> i == k && j == l
    ensures i * NENT <= Vpn(k, l) < (i + 1) * NENT <==> k == i
  {
  }

  /** Pages that are not there need no work: nothing between `p` and `q` is mapped. */
  lemma ShrunkSkip(m: Mem, w: Mem, d: nat, lo: nat, p: nat, q: nat)
    requires Shrunk(m, w, d, lo, p) && p <= q
    requires forall i: nat, j: nat :: i < UDIR && j < NENT && p <= Vpn(i, j) < q ==> !Lookup(w, d, i, j).p
    ensures Shrunk(m, w, d, lo, q)
  {
    forall i: nat, j: nat
      ensures Lookup(w, d, i, j) == ShrunkEntry(m, d, i, j, lo, q)
    {
      assert Lookup(w, d, i, j) == ShrunkEntry(m, d, i, j, lo, p);
      assert i < UDIR && j < NENT ==> PteOk(w, d, i, j);
    }
    forall x | x in m.owner
      ensures if InRange(m.owner[x], d, lo, q) then x !in w.owner else SamePage(m, w, d, x)
    {
      assert OwnerOk(m, x);
      assert x in w.owner ==> OwnerOk(w, x);
    }
  }

  /** One more page unmapped. */
  lemma ShrunkNext(m: Mem, w: Mem, d: nat, lo: nat, i: nat, j: nat)
    requires Shrunk(m, w, d, lo, Vpn(i, j)) && lo <= Vpn(i, j) && CanUnmap(w, d, i, j)
    ensures Shrunk(m, UserUnmap(w, d, i, j), d, lo, Vpn(i, j) + 1)
  {
    hide OwnerOk;
    var r := UserUnmap(w, d, i, j);
    UnmapKeeps(w, d, i, j);
    UnmapOwner(w, d, i, j);
    forall k: nat
      ensures At(r, d, k) == At(m, d, k)
    {
      UnmapLookup(w, d, i, j, d, k, 0);
    }
    forall k: nat, l: nat
      ensures Lookup(r, d, k, l) == ShrunkEntry(m, d, k, l, lo, Vpn(i, j) + 1)
    {
      UnmapLookup(w, d, i, j, d, k, l);
      assert Lookup(w, d, k, l) == ShrunkEntry(m, d, k, l, lo, Vpn(i, j));
      if l < NENT { VpnArith(i, j, k, l); }
    }
    forall x | x in m.owner
      ensures if InRange(m.owner[x], d, lo, Vpn(i, j) + 1) then x !in r.owner else SamePage(m, r, d, x)
    {
      ShrunkPage(m, w, d, lo, i, j, x);
    }
  }

  lemma ShrunkPage(m: Mem, w: Mem, d: nat, lo: nat, i: nat, j: nat, x: nat)
    requires Shrunk(m, w, d, lo, Vpn(i, j)) && lo <= Vpn(i, j) && CanUnmap(w, d, i, j) && x in m.owner
    ensures if InRange(m.owner[x], d, lo, Vpn(i, j) + 1) then x !in UserUnmap(w, d, i, j).owner
            else SamePage(m, UserUnmap(w, d, i, j), d, x)
  {
    UnmapOwner(w, d, i, j);
    assert OwnerOk(m, x);
    if !InRange(m.owner[x], d, lo, Vpn(i, j)) {
      assert SamePage(m, w, d, x);
      if m.owner[x].User? { VpnArith(i, j, m.owner[x].i, m.owner[x].j); }
      if x in UserUnmap(w, d, i, j).owner {
        UnmapKept(w, d, i, j, x);
      } else {
        assert x == Lookup(w, d, i, j).ppn;
      }
    }
  }
}
