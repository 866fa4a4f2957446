/**
 The three-level page tables of the Sv39 scheme, section 4.4 of the RISC-V
 Privileged Architecture manual.

 A table page holds 512 entries; here it is a map from index to entry in which an
 absent index reads as zero. `PteAt` is the entry that translates a page. The
 theorems say that the tree is a flat map from pages to entries: mapping or
 unmapping a page changes that page's entry and no other, in any page table.
 */
module PageTable {
  import opened Common

  type Word = bv64

  /** A physical address. */
  datatype Addr = Addr(bits: Word)

  type Table = map<int, Word>
  type Tables = map<Addr, Table>

  const PTE_V: Word := 1
  const MAXVA := 0x40_0000_0000

  /** The nine bits of a virtual address that index the table at a level. */
  function Px(level: nat, va: nat): nat
    requires level <= 2
  {
    (if level == 2 then va / 0x4000_0000 else if level == 1 then va / 0x20_0000 else va / 0x1000) % 0x200
  }

  function PteOf(pa: Addr): Word {
    (pa.bits >> 12) << 10
  }

  function PaOf(pte: Word): Addr {
    Addr((pte >> 10) << 12)
  }

  function Flags(pte: Word): Word {
    pte & 0x3FF
  }

  predicate IsValid(pte: Word) {
    pte & PTE_V != 0
  }

  predicate Aligned(a: Word) {
    a & 0xFFF == 0
  }

  function PageDown(a: nat): (r: nat)
    ensures r % PGSIZE == 0 && r <= a < r + PGSIZE
  {
    a - a % PGSIZE
  }

  /** A virtual page. */
  predicate Page(va: nat) {
    va % PGSIZE == 0 && va < MAXVA
  }

  /** The three indices determine the page. */
  lemma IndicesInjective(a: nat, b: nat)
    requires Page(a) && Page(b)
    requires Px(2, a) == Px(2, b) && Px(1, a) == Px(1, b) && Px(0, a) == Px(0, b)
    ensures a == b
  {
    FromIndices(a);
    FromIndices(b);
  }

  lemma FromIndices(a: nat)
    requires Page(a)
    ensures a == ((Px(2, a) * 0x200 + Px(1, a)) * 0x200 + Px(0, a)) * PGSIZE
  {
    var v := a / PGSIZE;
    assert a / 0x20_0000 == v / 0x200 && a / 0x4000_0000 == v / 0x200 / 0x200;
  }

  /** An entry made from a frame and permissions gives both back. */
  lemma EntryRoundTrip(pa: Addr, perm: Word)
    requires Aligned(pa.bits) && Flags(perm) == perm
    ensures var e := PteOf(pa) | perm | PTE_V;
            PaOf(e) == pa && Flags(e) == perm | PTE_V && IsValid(e) && e >> 10 == pa.bits >> 12
  {}

  lemma TableEntry(pa: Addr)
    requires Aligned(pa.bits)
    ensures PaOf(PteOf(pa) | PTE_V) == pa && IsValid(PteOf(pa) | PTE_V)
  {}

  lemma ZeroInvalid()
    ensures !IsValid(0)
  {}

  // ---- Walking ----

  function Get(t: Tables, p: Addr, i: nat): Word {
    if p in t && i in t[p] then t[p][i] else 0
  }

  /** The next table, if the entry is valid. */
  function Down(t: Tables, p: Addr, i: nat): Option<Addr> {
    if IsValid(Get(t, p, i)) then Some(PaOf(Get(t, p, i))) else None
  }

  function LowTable(t: Tables, root: Addr, va: nat): Option<Addr> {
    var mid := Down(t, root, Px(2, va));
    if mid == None then None else Down(t, mid.value, Px(1, va))
  }

  /** The entry that translates `va`; zero where the tree does not reach. */
  function PteAt(t: Tables, root: Addr, va: nat): Word {
    var low := LowTable(t, root, va);
    if low == None then 0 else Get(t, low.value, Px(0, va))
  }

  // ---- Trees do not share tables ----

  /** Where a table page sits. */
  datatype Role = Top(root: Addr) | Mid(root: Addr, i2: nat) | Low(root: Addr, i2: nat, i1: nat)

  function Child(r: Role, i: nat): Role
    requires !r.Low?
  {
    if r.Top? then Mid(r.root, i) else Low(r.root, r.i2, i)
  }

  ghost predicate Linked(t: Tables, role: map<Addr, Role>, p: Addr, i: nat)
    requires p in role && !role[p].Low?
  {
    IsValid(Get(t, p, i)) ==>
      PaOf(Get(t, p, i)) in t && PaOf(Get(t, p, i)) in role && role[PaOf(Get(t, p, i))] == Child(role[p], i)
  }

  ghost predicate Trees(t: Tables, role: map<Addr, Role>) {
    && t.Keys == role.Keys
    && (forall p :: p in role && role[p].Top? ==> role[p].root == p)
    && (forall p, i :: p in role && !role[p].Low? ==> Linked(t, role, p, i))
  }

  ghost predicate IsRoot(role: map<Addr, Role>, r: Addr) {
    r in role && role[r] == Top(r)
  }

  lemma DownRole(t: Tables, role: map<Addr, Role>, p: Addr, i: nat)
    requires Trees(t, role) && p in role && !role[p].Low? && Down(t, p, i).Some?
    ensures var q := Down(t, p, i).value; q in t && q in role && role[q] == Child(role[p], i)
  {
    assert Linked(t, role, p, i);
  }

  lemma LowRole(t: Tables, role: map<Addr, Role>, r: Addr, va: nat)
    requires Trees(t, role) && IsRoot(role, r) && LowTable(t, r, va).Some?
    ensures var l := LowTable(t, r, va).value; l in t && l in role && role[l] == Low(r, Px(2, va), Px(1, va))
  {
    hide Trees, IsValid, Px;
    DownRole(t, role, r, Px(2, va));
    DownRole(t, role, Down(t, r, Px(2, va)).value, Px(1, va));
  }

  // ---- Growing the tree ----

  /** walk hangs an empty table `q` into entry `i` of table `p`. */
  ghost function Hung(t: Tables, p: Addr, i: nat, q: Addr): Tables
    requires p in t
  {
    t[q := map[]][p := t[p][i := PteOf(q) | PTE_V]]
  }

  lemma HangGet(t: Tables, p: Addr, i: nat, q: Addr, a: Addr, j: nat)
    requires p in t && q !in t && a in t
    ensures Get(Hung(t, p, i, q), a, j) == if a == p && j == i then PteOf(q) | PTE_V else Get(t, a, j)
    ensures Get(Hung(t, p, i, q), q, j) == 0
  {
    hide PteOf;
  }

  lemma HangDown(t: Tables, p: Addr, i: nat, q: Addr, a: Addr, j: nat)
    requires p in t && q !in t && Aligned(q.bits) && a in t
    ensures Down(Hung(t, p, i, q), a, j) == if a == p && j == i then Some(q) else Down(t, a, j)
    ensures Down(Hung(t, p, i, q), q, j) == None
    ensures a != p ==> Get(Hung(t, p, i, q), a, j) == Get(t, a, j)
    ensures Get(Hung(t, p, i, q), q, j) == 0
  {
    hide PteOf, PaOf, IsValid, Get, Hung, Aligned;
    HangGet(t, p, i, q, a, j);
    TableEntry(q);
    ZeroInvalid();
  }

  lemma HangTrees(t: Tables, role: map<Addr, Role>, p: Addr, i: nat, q: Addr)
    requires Trees(t, role) && p in t && q !in t && Aligned(q.bits) && !role[p].Low? && !IsValid(Get(t, p, i))
    ensures Trees(Hung(t, p, i, q), role[q := Child(role[p], i)])
  {
    hide PteOf, PaOf, IsValid;
    var t', role' := Hung(t, p, i, q), role[q := Child(role[p], i)];
    TableEntry(q);
    ZeroInvalid();
    forall a, j | a in role' && !role'[a].Low?
      ensures Linked(t', role', a, j)
    {
      if a != q {
        assert Linked(t, role, a, j);
      }
    }
  }

  /** An empty table translates nothing. */
  lemma HangKeeps(t: Tables, role: map<Addr, Role>, p: Addr, i: nat, q: Addr, r: Addr, va: nat)
    requires Trees(t, role) && p in t && q !in t && Aligned(q.bits) && !role[p].Low? && !IsValid(Get(t, p, i))
    requires IsRoot(role, r)
    ensures PteAt(Hung(t, p, i, q), r, va) == PteAt(t, r, va)
  {
    hide Trees, PteOf, PaOf, IsValid, Px, Hung, Get;
    RootIsTable(t, role, r);
    HangDown(t, p, i, q, r, Px(2, va));
    if Down(t, r, Px(2, va)).Some? {
      DownRole(t, role, r, Px(2, va));
      var m := Down(t, r, Px(2, va)).value;
      HangDown(t, p, i, q, m, Px(1, va));
      if Down(t, m, Px(1, va)).Some? {
        DownRole(t, role, m, Px(1, va));
        HangDown(t, p, i, q, Down(t, m, Px(1, va)).value, Px(0, va));
      }
    }
    HangDown(t, p, i, q, p, Px(1, va));
    HangDown(t, p, i, q, p, Px(0, va));
  }

  lemma RootIsTable(t: Tables, role: map<Addr, Role>, r: Addr)
    requires Trees(t, role) && IsRoot(role, r)
    ensures r in t
  {}

  // ---- Changing a leaf ----

  lemma StoreTrees(t: Tables, role: map<Addr, Role>, l: Addr, i: nat, e: Word)
    requires Trees(t, role) && l in t && role[l].Low?
    ensures Trees(t[l := t[l][i := e]], role)
  {
    hide IsValid, PaOf;
    var t' := t[l := t[l][i := e]];
    forall a, j | a in role && !role[a].Low?
      ensures Linked(t', role, a, j)
    {
      assert Linked(t, role, a, j);
    }
  }

  lemma PteThere(t: Tables, root: Addr, va: nat, l: Addr)
    requires LowTable(t, root, va) == Some(l)
    ensures PteAt(t, root, va) == Get(t, l, Px(0, va))
  {}

  lemma PteMissing(t: Tables, root: Addr, va: nat)
    requires LowTable(t, root, va) == None
    ensures PteAt(t, root, va) == 0
  {}

  lemma StoreGet(t: Tables, l: Addr, i: nat, e: Word, a: Addr, j: nat)
    requires l in t
    ensures Get(t[l := t[l][i := e]], a, j) == if a == l && j == i then e else Get(t, a, j)
    ensures a != l ==> Down(t[l := t[l][i := e]], a, j) == Down(t, a, j)
  {
    hide IsValid, PaOf;
  }

  /** No table above the leaves changes, so every walk ends where it did. */
  lemma StoreWalk(t: Tables, role: map<Addr, Role>, l: Addr, i: nat, e: Word, r: Addr, x: nat)
    requires Trees(t, role) && IsRoot(role, r) && l in t && l in role && role[l].Low?
    ensures LowTable(t[l := t[l][i := e]], r, x) == LowTable(t, r, x)
  {
    hide Trees, Down, Get, Px;
    StoreGet(t, l, i, e, r, Px(2, x));
    if Down(t, r, Px(2, x)).Some? {
      DownRole(t, role, r, Px(2, x));
      StoreGet(t, l, i, e, Down(t, r, Px(2, x)).value, Px(1, x));
    }
  }

  lemma StoreLeaf(t: Tables, role: map<Addr, Role>, root: Addr, va: nat, l: Addr, e: Word, r: Addr, x: nat)
    requires Trees(t, role) && IsRoot(role, root) && IsRoot(role, r) && LowTable(t, root, va) == Some(l)
    requires Page(va) && Page(x)
    ensures l in t && PteAt(t[l := t[l][Px(0, va) := e]], r, x) == if r == root && x == va then e else PteAt(t, r, x)
  {
    hide Trees, Down, Get, Px, Page, LowTable, IsRoot, PteAt;
    LowRole(t, role, root, va);
    var i := Px(0, va);
    var t' := t[l := t[l][i := e]];
    StoreWalk(t, role, l, i, e, r, x);
    if LowTable(t, r, x) == None {
      PteMissing(t, r, x);
      PteMissing(t', r, x);
    } else {
      var k := LowTable(t, r, x).value;
      LowRole(t, role, r, x);
      PteThere(t, r, x, k);
      PteThere(t', r, x, k);
      StoreGet(t, l, i, e, k, Px(0, x));
      if k == l && Px(0, x) == i {
        IndicesInjective(x, va);
      }
    }
  }

  // ---- Steps of a walk ----

  /** Having descended to `level`, the walk for `va` stands at table `p`. */
  ghost predicate At(t: Tables, role: map<Addr, Role>, root: Addr, va: nat, level: nat, p: Addr)
    requires level <= 2
  {
    && p in t && p in role
    && (level == 2 ==> p == root && role[p] == Top(root))
    && (level == 1 ==> Down(t, root, Px(2, va)) == Some(p) && role[p] == Mid(root, Px(2, va)))
    && (level == 0 ==> LowTable(t, root, va) == Some(p) && role[p] == Low(root, Px(2, va), Px(1, va)))
  }

  lemma Descend(t: Tables, role: map<Addr, Role>, root: Addr, va: nat, level: nat, p: Addr)
    requires Trees(t, role) && 1 <= level <= 2 && At(t, role, root, va, level, p) && IsValid(Get(t, p, Px(level, va)))
    ensures At(t, role, root, va, level - 1, PaOf(Get(t, p, Px(level, va))))
  {
    hide Trees, Px, PaOf, IsValid, Get;
    DownRole(t, role, p, Px(level, va));
  }

  lemma Extend(t: Tables, role: map<Addr, Role>, root: Addr, va: nat, level: nat, p: Addr, q: Addr)
    requires Trees(t, role) && 1 <= level <= 2 && At(t, role, root, va, level, p) && !IsValid(Get(t, p, Px(level, va)))
    requires q !in t && Aligned(q.bits)
    ensures At(Hung(t, p, Px(level, va), q), role[q := Child(role[p], Px(level, va))], root, va, level - 1, q)
  {
    hide Trees, Px, PaOf, PteOf, IsValid, Get;
    var i := Px(level, va);
    HangDown(t, p, i, q, p, i);
    if level == 1 {
      TopIsOther(t, role, root, va, p);
      HangDown(t, p, i, q, root, Px(2, va));
    }
  }

  lemma TopIsOther(t: Tables, role: map<Addr, Role>, root: Addr, va: nat, p: Addr)
    requires Trees(t, role) && At(t, role, root, va, 1, p)
    ensures root in t && root != p
  {
    hide Px;
    ZeroInvalid();
    assert Linked(t, role, p, Px(2, va));
  }

  /** Every page of every page table translates as before. */
  ghost predicate SameFlat(role: map<Addr, Role>, t: Tables, t': Tables) {
    forall r, x: nat :: IsRoot(role, r) ==> PteAt(t', r, x) == PteAt(t, r, x)
  }

  ghost predicate SameRoots(role: map<Addr, Role>, role': map<Addr, Role>) {
    forall r :: IsRoot(role', r) <==> IsRoot(role, r)
  }

  lemma HangFlat(t: Tables, role: map<Addr, Role>, p: Addr, i: nat, q: Addr)
    requires Trees(t, role) && p in t && q !in t && Aligned(q.bits) && !role[p].Low? && !IsValid(Get(t, p, i))
    ensures SameFlat(role, t, Hung(t, p, i, q)) && SameRoots(role, role[q := Child(role[p], i)])
  {
    hide PteAt;
    forall r, x: nat | IsRoot(role, r)
      ensures PteAt(Hung(t, p, i, q), r, x) == PteAt(t, r, x)
    {
      HangKeeps(t, role, p, i, q, r, x);
    }
  }

  ghost predicate MapsNothing(t: Tables, root: Addr) {
    forall va: nat :: PteAt(t, root, va) == 0
  }

  /** An empty table reads like none at all. */
  lemma EmptyTable(t: Tables, q: Addr, r: Addr, x: nat)
    requires q !in t
    ensures PteAt(t[q := map[]], r, x) == PteAt(t, r, x)
    ensures PteAt(t, q, x) == 0
  {
    hide IsValid, PaOf, Px;
    ZeroInvalid();
    var t' := t[q := map[]];
    EmptyGet(t, q, r, Px(2, x));
    if Down(t, r, Px(2, x)).Some? {
      var m := Down(t, r, Px(2, x)).value;
      EmptyGet(t, q, m, Px(1, x));
      if Down(t, m, Px(1, x)).Some? {
        EmptyGet(t, q, Down(t, m, Px(1, x)).value, Px(0, x));
      }
    }
  }

  lemma EmptyGet(t: Tables, q: Addr, a: Addr, j: nat)
    requires q !in t
    ensures Get(t[q := map[]], a, j) == Get(t, a, j)
  {}

  lemma NewRoot(t: Tables, role: map<Addr, Role>, q: Addr)
    requires Trees(t, role) && q !in t
    ensures Trees(t[q := map[]], role[q := Top(q)])
    ensures SameFlat(role, t, t[q := map[]]) && MapsNothing(t[q := map[]], q)
  {
    hide IsValid, PaOf, PteAt, Get;
    var t', role' := t[q := map[]], role[q := Top(q)];
    ZeroInvalid();
    forall a, j: nat | a in role' && !role'[a].Low?
      ensures Linked(t', role', a, j)
    {
      EmptyGet(t, q, a, j);
      if a == q {
        AbsentGet(t, q, j);
      } else {
        assert Linked(t, role, a, j);
      }
    }
    forall r, x: nat
      ensures PteAt(t', r, x) == PteAt(t, r, x) && PteAt(t, q, x) == 0
    {
      EmptyTable(t, q, r, x);
    }
  }

  lemma AbsentGet(t: Tables, q: Addr, j: nat)
    requires q !in t
    ensures Get(t, q, j) == 0
  {}

  /** Frames kalloc can give: aligned, each once, none a table in use. */
  ghost predicate Fresh(pool: seq<Addr>, t: Tables) {
    && (forall i :: 0 <= i < |pool| ==> pool[i] !in t && Aligned(pool[i].bits))
    && (forall i, j :: 0 <= i < j < |pool| ==> pool[i] != pool[j])
  }

  datatype Walked = Panicked | Missing | Entry(table: Addr, index: nat)

  lemma StartAt(t: Tables, role: map<Addr, Role>, root: Addr, va: nat)
    requires Trees(t, role) && IsRoot(role, root)
    ensures At(t, role, root, va, 2, root)
  {}

  lemma NotThere(t: Tables, role: map<Addr, Role>, root: Addr, va: nat, level: nat, p: Addr)
    requires 1 <= level <= 2 && At(t, role, root, va, level, p) && !IsValid(Get(t, p, Px(level, va)))
    ensures LowTable(t, root, va) == None
  {
    hide Px, IsValid, Get;
  }

  lemma Arrived(t: Tables, role: map<Addr, Role>, root: Addr, va: nat, p: Addr)
    requires At(t, role, root, va, 0, p)
    ensures LowTable(t, root, va) == Some(p)
  {}

  lemma HungIs(t: Tables, p: Addr, i: nat, q: Addr)
    requires p in t && p != q
    ensures t[q := map[]][p := t[q := map[]][p][i := PteOf(q) | PTE_V]] == Hung(t, p, i, q)
  {
    hide PteOf;
  }

  lemma TakeTable(pool: seq<Addr>, t: Tables, p: Addr, i: nat)
    requires pool != [] && Fresh(pool, t) && p in t
    ensures pool[0] !in t && Aligned(pool[0].bits)
    ensures Fresh(pool[1..], Hung(t, p, i, pool[0]))
  {
    hide Aligned, PteOf;
  }

  // ---- Ranges ----

  /** The `n`th frame from `pa` on. */
  function FrameAt(pa: Word, n: nat): Word {
    if n == 0 then pa else FrameAt(pa, n - 1) + 0x1000
  }

  /** The page of the last byte; an empty range wraps around. */
  function LastPage(va: nat, size: nat): nat {
    PageDown((va + size + 0xFFFF_FFFF_FFFF_FFFF) % 0x1_0000_0000_0000_0000)
  }

  function Leaf(pa: Word, perm: Word): Word {
    PteOf(Addr(pa)) | perm | PTE_V
  }

  /** Pages `first` to `stop` of `root` now map consecutive frames from `pa`; all else is as in `t`. */
  ghost predicate MapsRange(role: map<Addr, Role>, t: Tables, t': Tables, root: Addr, first: nat, stop: nat, pa: Word,
                            perm: Word) {
    forall r, x: nat :: IsRoot(role, r) && Page(x) ==>
      PteAt(t', r, x) == if r == root && first <= x < stop then Leaf(FrameAt(pa, (x - first) / PGSIZE), perm)
        else PteAt(t, r, x)
  }

  /** Pages `first` to `stop` of `root` are unmapped; all else is as in `t`. */
  ghost predicate ClearsRange(role: map<Addr, Role>, t: Tables, t': Tables, root: Addr, first: nat, stop: nat) {
    forall r, x: nat :: IsRoot(role, r) && Page(x) ==>
      PteAt(t', r, x) == if r == root && first <= x < stop && IsValid(PteAt(t, r, x)) then 0 else PteAt(t, r, x)
  }

  lemma RangeStep(first: nat, a: nat, x: nat)
    requires Page(a) && Page(x) && first <= a
    ensures first <= x < a + PGSIZE <==> first <= x < a || x == a
  {}

  lemma NextPage(a: nat)
    requires Page(a)
    ensures (a + PGSIZE) % PGSIZE == 0 && a + PGSIZE <= MAXVA
  {}

  lemma MapStart(role: map<Addr, Role>, t: Tables, root: Addr, first: nat, pa: Word, perm: Word)
    ensures MapsRange(role, t, t, root, first, first, pa, perm)
  {
    hide PteAt, Leaf, Page, IsRoot;
  }

  lemma MapThenWalk(role: map<Addr, Role>, role': map<Addr, Role>, t: Tables, t1: Tables, t2: Tables, root: Addr,
                    first: nat, stop: nat, pa: Word, perm: Word)
    requires MapsRange(role, t, t1, root, first, stop, pa, perm) && SameRoots(role, role') && SameFlat(role', t1, t2)
    ensures MapsRange(role, t, t2, root, first, stop, pa, perm)
  {
    hide PteAt, Leaf, Page, IsRoot;
  }

  lemma MapStep(role: map<Addr, Role>, role': map<Addr, Role>, t: Tables, t1: Tables, root: Addr, first: nat, a: nat,
                pa: Word, perm: Word, l: Addr)
    requires MapsRange(role, t, t1, root, first, a, pa, perm) && SameRoots(role, role')
    requires Trees(t1, role') && IsRoot(role', root) && LowTable(t1, root, a) == Some(l) && Page(a) && first <= a
    ensures l in t1 && l in role' && role'[l].Low?
    ensures MapsRange(role, t, t1[l := t1[l][Px(0, a) := Leaf(FrameAt(pa, (a - first) / PGSIZE), perm)]], root,
      first, a + PGSIZE, pa, perm)
  {
    hide Trees, PteAt, LowTable, Leaf, Page, IsRoot, Px;
    LowRole(t1, role', root, a);
    forall r, x: nat | IsRoot(role, r) && Page(x)
      ensures PteAt(t1[l := t1[l][Px(0, a) := Leaf(FrameAt(pa, (a - first) / PGSIZE), perm)]], r, x) ==
        if r == root && first <= x < a + PGSIZE then Leaf(FrameAt(pa, (x - first) / PGSIZE), perm) else PteAt(t, r, x)
    {
      StoreLeaf(t1, role', root, a, l, Leaf(FrameAt(pa, (a - first) / PGSIZE), perm), r, x);
      RangeStep(first, a, x);
    }
  }

  lemma ClearStart(role: map<Addr, Role>, t: Tables, root: Addr, first: nat)
    ensures ClearsRange(role, t, t, root, first, first)
  {
    hide PteAt, Page, IsRoot;
  }

  lemma ClearSkip(role: map<Addr, Role>, t: Tables, t1: Tables, root: Addr, first: nat, a: nat)
    requires ClearsRange(role, t, t1, root, first, a) && Page(a) && first <= a
    requires IsRoot(role, root) ==> !IsValid(PteAt(t, root, a))
    ensures ClearsRange(role, t, t1, root, first, a + PGSIZE)
  {
    hide PteAt, Page, IsRoot, IsValid;
    forall r, x: nat | IsRoot(role, r) && Page(x)
      ensures PteAt(t1, r, x) == if r == root && first <= x < a + PGSIZE && IsValid(PteAt(t, r, x)) then 0
        else PteAt(t, r, x)
    {
      RangeStep(first, a, x);
    }
  }

  lemma ClearStep(role: map<Addr, Role>, t: Tables, t1: Tables, root: Addr, first: nat, a: nat, l: Addr)
    requires ClearsRange(role, t, t1, root, first, a) && Page(a) && first <= a
    requires Trees(t1, role) && IsRoot(role, root) && LowTable(t1, root, a) == Some(l) && IsValid(PteAt(t, root, a))
    ensures l in t1 && l in role && role[l].Low?
    ensures ClearsRange(role, t, t1[l := t1[l][Px(0, a) := 0]], root, first, a + PGSIZE)
  {
    hide Trees, PteAt, LowTable, Page, IsRoot, Px, IsValid;
    LowRole(t1, role, root, a);
    forall r, x: nat | IsRoot(role, r) && Page(x)
      ensures PteAt(t1[l := t1[l][Px(0, a) := 0]], r, x) ==
        if r == root && first <= x < a + PGSIZE && IsValid(PteAt(t, r, x)) then 0 else PteAt(t, r, x)
    {
      StoreLeaf(t1, role, root, a, l, 0, r, x);
      RangeStep(first, a, x);
    }
  }

  lemma StoreFresh(pool: seq<Addr>, t: Tables, l: Addr, i: nat, e: Word)
    requires Fresh(pool, t) && l in t
    ensures Fresh(pool, t[l := t[l][i := e]])
  {
    hide Aligned;
  }

  /** The frames mapped by the valid pages from `lo` up to `hi`, in order. */
  ghost function FramesIn(t: Tables, root: Addr, lo: nat, hi: nat): seq<Addr>
    decreases hi
  {
    if hi < PGSIZE || hi <= lo then []
    else
      var pte := PteAt(t, root, hi - PGSIZE);
      FramesIn(t, root, lo, hi - PGSIZE) + if IsValid(pte) then [PaOf(pte)] else []
  }

  /** PTE_V and PTE_U are both set. */
  predicate UserEntry(pte: Word) {
    IsValid(pte) && pte & 0x10 != 0
  }

  lemma ZeroIsNoUser()
    ensures !UserEntry(0)
  {}

  lemma NotYetCleared(role: map<Addr, Role>, t: Tables, t1: Tables, root: Addr, first: nat, a: nat)
    requires ClearsRange(role, t, t1, root, first, a) && IsRoot(role, root) && Page(a)
    ensures PteAt(t1, root, a) == PteAt(t, root, a)
  {
    hide PteAt, Page, IsRoot, IsValid;
  }

  lemma RootsSame(role: map<Addr, Role>)
    ensures SameRoots(role, role)
  {}

  lemma RootKept(role: map<Addr, Role>, role': map<Addr, Role>, r: Addr)
    requires SameRoots(role, role') && IsRoot(role, r)
    ensures IsRoot(role', r)
  {}

  lemma SameRootsTwice(a: map<Addr, Role>, b: map<Addr, Role>, c: map<Addr, Role>)
    requires SameRoots(a, b) && SameRoots(b, c)
    ensures SameRoots(a, c)
  {
    hide IsRoot;
  }

  lemma IsPage(a: nat)
    requires a % PGSIZE == 0 && a < MAXVA
    ensures Page(a)
  {}

  lemma NotInRange(role: map<Addr, Role>, t: Tables, t1: Tables, root: Addr, first: nat, a: nat, pa: Word, perm: Word)
    requires MapsRange(role, t, t1, root, first, a, pa, perm) && IsRoot(role, root) && Page(a)
    ensures PteAt(t1, root, a) == PteAt(t, root, a)
  {
    hide PteAt, Page, IsRoot, Leaf;
  }

  /** A mapped page translates to its frame, with the permissions given. */
  lemma Translates(role: map<Addr, Role>, t: Tables, t': Tables, root: Addr, first: nat, stop: nat, pa: Word,
                   perm: Word, x: nat)
    requires MapsRange(role, t, t', root, first, stop, pa, perm) && IsRoot(role, root) && Page(x) && first <= x < stop
    requires Aligned(pa) && Flags(perm) == perm
    ensures var e := PteAt(t', root, x);
            IsValid(e) && PaOf(e) == Addr(FrameAt(pa, (x - first) / PGSIZE)) && Flags(e) == perm | PTE_V
  {
    hide PteAt, Page, IsRoot, Aligned, PteOf, PaOf, Flags, IsValid, MapsRange;
    var frame := FrameAt(pa, (x - first) / PGSIZE);
    FramesAligned(pa, (x - first) / PGSIZE);
    EntryRoundTrip(Addr(frame), perm);
    MappedEntry(role, t, t', root, first, stop, pa, perm, x);
  }

  lemma MappedEntry(role: map<Addr, Role>, t: Tables, t': Tables, root: Addr, first: nat, stop: nat, pa: Word,
                    perm: Word, x: nat)
    requires MapsRange(role, t, t', root, first, stop, pa, perm) && IsRoot(role, root) && Page(x) && first <= x < stop
    ensures PteAt(t', root, x) == Leaf(FrameAt(pa, (x - first) / PGSIZE), perm)
  {
    hide PteAt, Page, IsRoot, Leaf;
  }

  lemma {:induction false} FramesAligned(pa: Word, n: nat)
    requires Aligned(pa)
    ensures Aligned(FrameAt(pa, n))
  {
    if n > 0 {
      FramesAligned(pa, n - 1);
      AlignedNext(FrameAt(pa, n - 1));
    }
  }

  lemma AlignedNext(a: Word)
    requires Aligned(a)
    ensures Aligned(a + 0x1000)
  {}

  /** Unmapping what was just mapped restores every translation. */
  lemma UnmapUndoesMap(role: map<Addr, Role>, t: Tables, t1: Tables, t2: Tables, root: Addr, first: nat, stop: nat,
                       pa: Word, perm: Word, r: Addr, x: nat)
    requires MapsRange(role, t, t1, root, first, stop, pa, perm) && ClearsRange(role, t1, t2, root, first, stop)
    requires Aligned(pa) && Flags(perm) == perm
    requires forall y: nat :: Page(y) && first <= y < stop ==> PteAt(t, root, y) == 0
    requires IsRoot(role, root) && IsRoot(role, r) && Page(x)
    ensures PteAt(t2, r, x) == PteAt(t, r, x)
  {
    hide PteAt, Page, IsRoot, Aligned, Flags, IsValid, FrameAt, Leaf, PaOf;
    if r == root && first <= x < stop {
      Translates(role, t, t1, root, first, stop, pa, perm, x);
    }
  }

  // ---- The memory ----

  datatype MapOutcome = Done | NoMemory | Panic

  class Memory {
    var tables: Tables
    var pool: seq<Addr>
    ghost var role: map<Addr, Role>

    ghost predicate Valid()
      reads this
    {
      Trees(tables, role) && Fresh(pool, tables)
    }

    constructor (frames: seq<Addr>)
      requires Fresh(frames, map[])
      ensures Valid() && tables == map[] && pool == frames
    {
      tables, pool, role := map[], frames, map[];
    }

    /** uvmcreate: a page table that maps nothing. Existing page tables translate as before. */
    method Create() returns (root: Option<Addr>)
      requires Valid()
      modifies this
      ensures Valid() && SameFlat(old(role), old(tables), tables)
      ensures root == None <==> old(pool) == []
      ensures root == None ==> tables == old(tables) && role == old(role)
      ensures root.Some? ==>
        !IsRoot(old(role), root.value) && IsRoot(role, root.value) && MapsNothing(tables, root.value)
      ensures root.Some? ==> forall r :: IsRoot(role, r) <==> IsRoot(old(role), r) || r == root.value
    {
      hide PteAt, Aligned, MapsNothing, Linked;
      if pool == [] {
        return None;
      }
      var q := pool[0];
      NewRoot(tables, role, q);
      pool := pool[1..];
      tables := tables[q := map[]];
      role := role[q := Top(q)];
      return Some(q);
    }

    /** The entry for `va`, making the tables on the way to it if asked. No translation changes. */
    method Walk(root: Addr, va: nat, alloc: bool) returns (w: Walked)
      requires Valid() && IsRoot(role, root)
      modifies this
      ensures Valid() && SameRoots(old(role), role) && SameFlat(old(role), old(tables), tables)
      ensures w == Panicked <==> va >= MAXVA
      ensures w.Entry? ==> LowTable(tables, root, va) == Some(w.table) && w.index == Px(0, va)
      ensures w == Missing ==> LowTable(tables, root, va) == None && (alloc ==> pool == [])
      ensures !alloc ==> tables == old(tables) && pool == old(pool) && role == old(role)
    {
      hide Trees, Px, PaOf, PteOf, IsValid, Get, PteAt, LowTable, Fresh, IsRoot, Hung;
      if va >= MAXVA {
        return Panicked;
      }
      var level: nat := 2;
      var p := root;
      StartAt(tables, role, root, va);
      while level > 0
        invariant level <= 2
        invariant Valid() && SameRoots(old(role), role) && SameFlat(old(role), old(tables), tables)
        invariant At(tables, role, root, va, level, p)
        invariant !alloc ==> tables == old(tables) && pool == old(pool) && role == old(role)
      {
        var i := Px(level, va);
        var pte := Get(tables, p, i);
        if IsValid(pte) {
          Descend(tables, role, root, va, level, p);
          p := PaOf(pte);
        } else {
          if !alloc || pool == [] {
            NotThere(tables, role, root, va, level, p);
            return Missing;
          }
          var q := pool[0];
          ghost var t, ro := tables, role;
          TakeTable(pool, t, p, i);
          Extend(t, ro, root, va, level, p, q);
          HangFlat(t, ro, p, i, q);
          HangTrees(t, ro, p, i, q);
          pool := pool[1..];
          tables := tables[q := map[]];
          tables := tables[p := tables[p][i := PteOf(q) | PTE_V]];
          role := role[q := Child(role[p], i)];
          HungIs(t, p, i, q);
          p := q;
        }
        level := level - 1;
      }
      Arrived(tables, role, root, va, p);
      return Entry(p, Px(0, va));
    }

    /**
     Maps the pages from `va` to `va + size - 1` to frames from `pa` on. `stop` is
     where it ended: at the end of the range, where no table could be had, at a page
     already mapped, or at the end of the address space.
     */
    method Mappages(root: Addr, va: nat, size: nat, pa: Word, perm: Word) returns (outcome: MapOutcome, stop: nat)
      requires Valid() && IsRoot(role, root)
      modifies this
      ensures Valid() && SameRoots(old(role), role)
      ensures MapsRange(old(role), old(tables), tables, root, PageDown(va), stop, pa, perm)
      ensures outcome == Done ==> PageDown(va) <= LastPage(va, size) < MAXVA && stop == LastPage(va, size) + PGSIZE
      ensures outcome == NoMemory ==> pool == [] && LowTable(tables, root, stop) == None
      ensures outcome == Panic ==> stop >= MAXVA || IsValid(PteAt(old(tables), root, stop))
    {
      hide Trees, Px, PaOf, PteOf, IsValid, Get, PteAt, LowTable, Fresh, IsRoot, SameFlat, SameRoots, MapsRange, Leaf,
        PageDown, LastPage, Page;
      var first, last := PageDown(va), LastPage(va, size);
      var a, frame := first, pa;
      MapStart(role, tables, root, first, pa, perm);
      RootsSame(role);
      while true
        invariant Valid() && IsRoot(role, root) && SameRoots(old(role), role)
        invariant a % PGSIZE == 0 && first % PGSIZE == 0 && first <= a && frame == FrameAt(pa, (a - first) / PGSIZE)
        invariant MapsRange(old(role), old(tables), tables, root, first, a, pa, perm)
        decreases MAXVA - a
      {
        ghost var t, ro := tables, role;
        var w := Walk(root, a, true);
        RootKept(ro, role, root);
        SameRootsTwice(old(role), ro, role);
        MapThenWalk(old(role), ro, old(tables), t, tables, root, first, a, pa, perm);
        if w == Panicked {
          return Panic, a;
        }
        if w == Missing {
          return NoMemory, a;
        }
        IsPage(a);
        PteThere(tables, root, a, w.table);
        if IsValid(Get(tables, w.table, w.index)) {
          NotInRange(old(role), old(tables), tables, root, first, a, pa, perm);
          return Panic, a;
        }
        MapStep(old(role), role, old(tables), tables, root, first, a, pa, perm, w.table);
        StoreTrees(tables, role, w.table, w.index, Leaf(frame, perm));
        StoreFresh(pool, tables, w.table, w.index, Leaf(frame, perm));
        tables := tables[w.table := tables[w.table][w.index := Leaf(frame, perm)]];
        NextPage(a);
        if a == last {
          return Done, a + PGSIZE;
        }
        a := a + PGSIZE;
        frame := frame + 0x1000;
      }
    }

    /** The frame of a user page. */
    method Walkaddr(root: Addr, va: nat) returns (pa: Option<Addr>)
      requires Valid() && IsRoot(role, root)
      modifies this
      ensures Valid() && tables == old(tables) && pool == old(pool) && role == old(role)
      ensures pa == if va < MAXVA && UserEntry(PteAt(tables, root, va)) then Some(PaOf(PteAt(tables, root, va)))
        else None
    {
      hide Trees, Px, PaOf, PteOf, IsValid, Get, PteAt, LowTable, Fresh, IsRoot, SameFlat, SameRoots, UserEntry;
      ZeroIsNoUser();
      if va >= MAXVA {
        return None;
      }
      var w := Walk(root, va, false);
      if w == Missing {
        PteMissing(tables, root, va);
        return None;
      }
      PteThere(tables, root, va, w.table);
      var pte := Get(tables, w.table, w.index);
      return if UserEntry(pte) then Some(PaOf(pte)) else None;
    }

    /**
     Unmaps `npages` pages from `va` on and hands out their frames in order; a page
     not mapped is passed over. It panics where the address space ends, or at an
     entry without permissions.
     */
    method Uvmunmap(root: Addr, va: nat, npages: nat) returns (panicked: bool, stop: nat, freed: seq<Addr>)
      requires Valid() && IsRoot(role, root) && va + npages * PGSIZE < 0x1_0000_0000_0000_0000
      modifies this
      ensures Valid() && role == old(role) && pool == old(pool)
      ensures va % PGSIZE != 0 ==> panicked && stop == va
      ensures ClearsRange(role, old(tables), tables, root, va, stop)
      ensures freed == FramesIn(old(tables), root, va, stop)
      ensures !panicked ==> stop == va + npages * PGSIZE
      ensures panicked && va % PGSIZE == 0 ==> stop >= MAXVA || Flags(PteAt(old(tables), root, stop)) == PTE_V
    {
      hide Trees, Px, PaOf, PteOf, IsValid, Get, PteAt, LowTable, Fresh, IsRoot, SameFlat, SameRoots, ClearsRange,
        Flags, Page;
      ClearStart(role, tables, root, va);
      freed := [];
      stop := va;
      if va % PGSIZE != 0 {
        return true, va, [];
      }
      while stop < va + npages * PGSIZE
        invariant va <= stop <= va + npages * PGSIZE && stop % PGSIZE == 0
        invariant Valid() && role == old(role) && pool == old(pool)
        invariant ClearsRange(role, old(tables), tables, root, va, stop)
        invariant freed == FramesIn(old(tables), root, va, stop)
        decreases va + npages * PGSIZE - stop
      {
        var w := Walk(root, stop, false);
        if w == Panicked {
          return true, stop, freed;
        }
        IsPage(stop);
        NotYetCleared(role, old(tables), tables, root, va, stop);
        if w == Missing {
          PteMissing(tables, root, stop);
          ZeroInvalid();
          ClearSkip(role, old(tables), tables, root, va, stop);
        } else {
          PteThere(tables, root, stop, w.table);
          var pte := Get(tables, w.table, w.index);
          if !IsValid(pte) {
            ClearSkip(role, old(tables), tables, root, va, stop);
          } else {
            if Flags(pte) == PTE_V {
              return true, stop, freed;
            }
            freed := freed + [PaOf(pte)];
            ClearStep(role, old(tables), tables, root, va, stop, w.table);
            StoreTrees(tables, role, w.table, w.index, 0);
            StoreFresh(pool, tables, w.table, w.index, 0);
            tables := tables[w.table := tables[w.table][w.index := 0]];
          }
        }
        stop := stop + PGSIZE;
      }
      return false, stop, freed;
    }
  }
}
