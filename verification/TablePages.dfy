/**
 The pages page tables are made of: which of them there are, which are missing on the way
 to an entry, and how many an operation has to allocate.
 */
module TablePages {
  import opened Common
  import opened Cow
  import PageTable

  /** The table of a process at the top, and those that cover 2^18 and 2^9 pages, by their place. */
  datatype Table = Root(pid: nat) | Mid(pid: nat, i: nat) | Low(pid: nat, i: nat)

  function LowOf(k: Key): Table {
    Low(k.pid, k.vpn / 0x200)
  }

  function MidOf(k: Key): Table {
    Mid(k.pid, k.vpn / 0x200 / 0x200)
  }

  /** These are the tables of the Sv39 tree: two pages share one exactly if they share the indices that lead to it. */
  lemma TablesOfTheTree(pid: nat, a: nat, b: nat)
    requires PageTable.Page(a) && PageTable.Page(b)
    ensures MidOf(Key(pid, a / PGSIZE)) == MidOf(Key(pid, b / PGSIZE)) <==> PageTable.Px(2, a) == PageTable.Px(2, b)
    ensures LowOf(Key(pid, a / PGSIZE)) == LowOf(Key(pid, b / PGSIZE)) <==>
      PageTable.Px(2, a) == PageTable.Px(2, b) && PageTable.Px(1, a) == PageTable.Px(1, b)
  {
    IndicesAre(a);
    IndicesAre(b);
  }

  lemma IndicesAre(a: nat)
    requires PageTable.Page(a)
    ensures PageTable.Px(2, a) == a / PGSIZE / 0x200 / 0x200
    ensures a / PGSIZE / 0x200 == PageTable.Px(2, a) * 0x200 + PageTable.Px(1, a)
  {
    var v := a / PGSIZE;
    assert a / 0x20_0000 == v / 0x200 && a / 0x4000_0000 == v / 0x200 / 0x200;
  }

  /** How many tables are missing on the way from the root to an entry. */
  function Missing(have: set<Table>, k: Key): nat {
    (if MidOf(k) in have then 0 else 1) + (if LowOf(k) in have then 0 else 1)
  }

  function WithPath(have: set<Table>, k: Key): set<Table> {
    have + {MidOf(k), LowOf(k)}
  }

  /**
   Table pages are kernel pages, one for each table; every table hangs under its parent,
   and every entry is in its tables.
   */
  ghost predicate Rooted(tables: map<Table, Frame>, kernel: set<Frame>, pt: PageTables) {
    && (forall t :: t in tables ==> tables[t] in kernel)
    && (forall t, u :: t in tables && u in tables && tables[t] == tables[u] ==> t == u)
    && (forall t :: t in tables ==> Hangs(tables, t))
    && (forall k :: k in pt ==> Root(k.pid) in tables && MidOf(k) in tables && LowOf(k) in tables)
  }

  predicate Hangs(tables: map<Table, Frame>, t: Table) {
    Root(t.pid) in tables && (t.Low? ==> Mid(t.pid, t.i / 0x200) in tables)
  }

  /** Kernel pages that are no tables. */
  ghost function Spare(kernel: set<Frame>, tables: map<Table, Frame>): set<Frame> {
    kernel - tables.Values
  }

  /** The processes that have a table. */
  function Alive(have: set<Table>): set<nat> {
    set t | t in have && t.Root? :: t.pid
  }

  /** Tables have been added under roots that were there. */
  ghost predicate Extended(have: set<Table>, have': set<Table>) {
    have <= have' && forall t :: t in have' && t !in have ==> !t.Root?
  }

  lemma ExtendedSelf(h: set<Table>)
    ensures Extended(h, h)
  {}

  lemma ExtendedMore(h: set<Table>, h1: set<Table>, h2: set<Table>)
    requires Extended(h, h1) && Extended(h1, h2)
    ensures Extended(h, h2) && h <= h2
  {}

  lemma SameAlive(have: set<Table>, have': set<Table>)
    requires Extended(have, have')
    ensures Alive(have') == Alive(have)
  {
    forall p
      ensures p in Alive(have) <==> Root(p) in have
      ensures p in Alive(have') <==> Root(p) in have'
    {}
  }

  lemma OneMoreAlive(have: set<Table>, pid: nat)
    ensures Alive(have + {Root(pid)}) == Alive(have) + {pid}
  {
    assert Root(pid) in have + {Root(pid)};
    forall p
      ensures p in Alive(have) <==> Root(p) in have
    {}
  }

  lemma OneLessAlive(tables: map<Table, Frame>, pid: nat)
    ensures Alive(OtherTables(tables, pid).Keys) == Alive(tables.Keys) - {pid}
  {
    forall p
      ensures p in Alive(tables.Keys) <==> Root(p) in tables
    {}
  }

  lemma OwnerAlive(tables: map<Table, Frame>, kernel: set<Frame>, pt: PageTables, t: Table)
    requires Rooted(tables, kernel, pt)
    ensures t in tables ==> t.pid in Alive(tables.Keys)
  {
    if t in tables {
      assert Hangs(tables, t);
    }
  }

  /** Without processes there are no tables and no entries. */
  lemma NoneAlive(tables: map<Table, Frame>, kernel: set<Frame>, pt: PageTables)
    requires Rooted(tables, kernel, pt) && Alive(tables.Keys) == {}
    ensures tables == map[] && pt == map[] && Spare(kernel, tables) == kernel
  {
    forall t
      ensures t !in tables
    {
      OwnerAlive(tables, kernel, pt, t);
    }
  }

  lemma NotInHand(kernel: set<Frame>, tables: map<Table, Frame>, g: Frame)
    requires g !in kernel
    ensures g !in Spare(kernel, tables)
  {}

  lemma NoTable(kernel: set<Frame>, tables: map<Table, Frame>, g: Frame)
    requires g in Spare(kernel, tables)
    ensures g in kernel && g !in tables.Values
  {}

  /** The tables of the other processes. */
  function OtherTables(tables: map<Table, Frame>, pid: nat): map<Table, Frame> {
    map t | t in tables && t.pid != pid :: tables[t]
  }

  lemma OthersLess(tables: map<Table, Frame>, t: Table, pid: nat)
    requires t in tables && t.pid == pid
    ensures OtherTables(tables - {t}, pid) == OtherTables(tables, pid) && |tables - {t}| == |tables| - 1
  {
    assert (tables - {t}).Keys == tables.Keys - {t};
  }

  lemma NoTables(tables: map<Table, Frame>, pid: nat)
    requires forall t :: t in tables ==> t.pid != pid
    ensures OtherTables(tables, pid) == tables
  {}

  // ---- What keeps it ----

  lemma RootedMore(tables: map<Table, Frame>, kernel: set<Frame>, pt: PageTables, g: Frame)
    requires Rooted(tables, kernel, pt) && g !in kernel
    ensures Rooted(tables, kernel + {g}, pt) && g !in tables.Values
    ensures Spare(kernel + {g}, tables) == Spare(kernel, tables) + {g}
  {}

  lemma RootedLess(tables: map<Table, Frame>, kernel: set<Frame>, pt: PageTables, g: Frame)
    requires Rooted(tables, kernel, pt) && g !in tables.Values
    ensures Rooted(tables, kernel - {g}, pt) && Spare(kernel - {g}, tables) == Spare(kernel, tables) - {g}
  {}

  lemma AddValues(tables: map<Table, Frame>, t: Table, g: Frame, f: Frame)
    requires t !in tables
    ensures f in tables[t := g].Values <==> f in tables.Values || f == g
  {
    if f in tables.Values {
      var u :| u in tables && tables[u] == f;
      assert tables[t := g][u] == f;
    }
    assert tables[t := g][t] == g;
  }

  lemma AddHangs(tables: map<Table, Frame>, t: Table, g: Frame, u: Table)
    requires Hangs(tables, u)
    ensures Hangs(tables[t := g], u)
  {}

  lemma RootedAdd(tables: map<Table, Frame>, kernel: set<Frame>, pt: PageTables, t: Table, g: Frame)
    requires Rooted(tables, kernel, pt) && t !in tables && g in kernel && g !in tables.Values
    requires Hangs(tables[t := g], t)
    ensures Rooted(tables[t := g], kernel, pt) && Spare(kernel, tables[t := g]) == Spare(kernel, tables) - {g}
    ensures tables[t := g].Keys == tables.Keys + {t}
  {
    hide Hangs;
    forall u | u in tables
      ensures Hangs(tables[t := g], u)
    {
      AddHangs(tables, t, g, u);
    }
    forall f
      ensures f in tables[t := g].Values <==> f in tables.Values || f == g
    {
      AddValues(tables, t, g, f);
    }
    assert forall u :: u in tables ==> tables[u] in tables.Values;
  }

  /** No other table hangs under this one. */
  ghost predicate NoneBelow(tables: map<Table, Frame>, t: Table) {
    forall u :: u in tables && u != t ==> t != Root(u.pid) && !(u.Low? && t == Mid(u.pid, u.i / 0x200))
  }

  lemma DropValues(tables: map<Table, Frame>, t: Table)
    requires t in tables && forall u :: u in tables && tables[u] == tables[t] ==> u == t
    ensures (tables - {t}).Values == tables.Values - {tables[t]}
  {
    var rest, g := tables - {t}, tables[t];
    forall f
      ensures f in rest.Values <==> f in tables.Values && f != g
    {
      if f in tables.Values && f != g {
        var u :| u in tables && tables[u] == f;
        assert rest[u] == f;
      }
    }
  }

  lemma DropHangs(tables: map<Table, Frame>, t: Table, u: Table)
    requires t in tables && NoneBelow(tables, t) && u in tables && u != t && Hangs(tables, u)
    ensures Hangs(tables - {t}, u)
  {}

  lemma RootedDrop(tables: map<Table, Frame>, kernel: set<Frame>, pt: PageTables, t: Table)
    requires Rooted(tables, kernel, pt) && t in tables && NoneBelow(tables, t) && forall k :: k in pt ==> k.pid != t.pid
    ensures Rooted(tables - {t}, kernel - {tables[t]}, pt)
    ensures Spare(kernel - {tables[t]}, tables - {t}) == Spare(kernel, tables)
    ensures tables[t] in kernel
  {
    hide Hangs, NoneBelow;
    DropValues(tables, t);
    forall u | u in tables && u != t
      ensures Hangs(tables - {t}, u)
    {
      DropHangs(tables, t, u);
    }
  }

  lemma RootedUnmap(tables: map<Table, Frame>, kernel: set<Frame>, pt: PageTables, pt': PageTables)
    requires Rooted(tables, kernel, pt) && pt'.Keys <= pt.Keys
    ensures Rooted(tables, kernel, pt')
  {}

  lemma RootedMap(tables: map<Table, Frame>, kernel: set<Frame>, pt: PageTables, k: Key, e: Pte)
    requires Rooted(tables, kernel, pt) && Root(k.pid) in tables && MidOf(k) in tables && LowOf(k) in tables
    ensures Rooted(tables, kernel, pt[k := e])
  {}

  // ---- How many tables operations need ----

  /** The tables after pages `lo` to `hi` of a process have been given entries. */
  function HaveGrow(have: set<Table>, pid: nat, lo: nat, hi: nat): set<Table>
    decreases hi
  {
    if hi <= lo then have else WithPath(HaveGrow(have, pid, lo, hi - 1), Key(pid, hi - 1))
  }

  /** The frames that takes: the pages, and the tables that are missing. */
  function NeedGrow(have: set<Table>, pid: nat, lo: nat, hi: nat): nat
    decreases hi
  {
    if hi <= lo then 0
    else NeedGrow(have, pid, lo, hi - 1) + 1 + Missing(HaveGrow(have, pid, lo, hi - 1), Key(pid, hi - 1))
  }

  lemma {:induction false} NeedGrowMore(have: set<Table>, pid: nat, lo: nat, a: nat, hi: nat)
    requires lo <= a <= hi
    ensures NeedGrow(have, pid, lo, a) <= NeedGrow(have, pid, lo, hi) && NeedGrow(have, pid, lo, hi) <= 3 * (hi - lo)
    decreases hi
  {
    if lo < hi {
      NeedGrowMore(have, pid, lo, if a < hi then a else hi - 1, hi - 1);
    }
  }

  /** The child's tables after the first `n` pages of the parent have been shared. */
  function HaveFork(have: set<Table>, keys: set<Key>, parent: nat, child: nat, n: nat): set<Table> {
    if n == 0 then have
    else
      var h := HaveFork(have, keys, parent, child, n - 1);
      if Key(parent, n - 1) in keys then WithPath(h, Key(child, n - 1)) else h
  }

  function NeedFork(have: set<Table>, keys: set<Key>, parent: nat, child: nat, n: nat): nat {
    if n == 0 then 0
    else
      NeedFork(have, keys, parent, child, n - 1) +
      if Key(parent, n - 1) in keys
      then Missing(HaveFork(have, keys, parent, child, n - 1), Key(child, n - 1)) else 0
  }

  lemma {:induction false} NeedForkMore(have: set<Table>, keys: set<Key>, parent: nat, child: nat, a: nat, n: nat)
    requires a <= n
    ensures NeedFork(have, keys, parent, child, a) <= NeedFork(have, keys, parent, child, n) <= 2 * n
  {
    if n > 0 {
      NeedForkMore(have, keys, parent, child, if a < n then a else n - 1, n - 1);
    }
  }
}
