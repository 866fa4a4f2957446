/**
 Runs of the virtual memory system: any sequence of processes made, forks, stores, copies
 to user memory, growing, shrinking and exits, on any processors, compared with a system
 whose fork copies every page at once.

 The eager system is a map from pages to contents, one from pages to whether the user
 may touch them, and the set of processes there are. What an operation may answer is
 stated in terms of these alone.
 */
module CowRun {

  import opened Common
  import opened Cow
  import opened TablePages
  import opened Vm

  datatype Op =
    | Create(pid: nat)
    | Fork(parent: nat, child: nat, pages: nat)
    | StoreByte(pid: nat, va: nat, b: Byte, sz: nat, shm: nat, sp: nat)
    | CopyTo(pid: nat, dst: nat, data: seq<Byte>)
    | Grow(pid: nat, oldsz: nat, newsz: nat)
    | Shrink(pid: nat, oldsz: nat, newsz: nat)
    | Exit(pid: nat, sz: nat)

  /** How an operation ended: in full, after `done` bytes, or not at all. */
  datatype Result = Done | Partly(done: nat) | Nothing

  /** The pages each process has, with whether the user may touch them, and the processes there are. */
  datatype Access = Access(users: map<Key, bool>, alive: set<nat>)

  ghost function AccessOf(m: Machine): Access
    reads m
  {
    Access(Users(m.pt), Alive(m.tables.Keys))
  }

  // ---- The eager system ----

  /** One private copy of every page for every process: what the operation does there. */
  ghost function Eager(v: Seen, op: Op, r: Result): Seen {
    match (op, r)
    case (_, Nothing) => v
    case (Create(_), _) => v
    case (Fork(p, c, n), _) => Forked(v, p, c, n)
    case (StoreByte(pid, va, b, _, _, _), _) =>
      var k := Key(pid, va / PGSIZE);
      var w := Touched(v, k, Filled(0));
      if |w[k]| == PGSIZE then w[k := Patched(w[k], va % PGSIZE, [b])] else v
    case (CopyTo(pid, dst, data), Done) => Written(v, pid, dst, data)
    case (CopyTo(pid, dst, data), Partly(n)) => if n <= |data| then Written(v, pid, dst, data[..n]) else v
    case (Grow(pid, oldsz, newsz), _) => GrownTo(v, pid, oldsz, newsz, Filled(0))
    case (Shrink(pid, oldsz, newsz), _) => ShrunkTo(v, pid, oldsz, newsz)
    case (Exit(pid, _), _) => Others(v, pid)
  }

  ghost function EagerAccess(a: Access, op: Op, r: Result): Access {
    match (op, r)
    case (_, Nothing) => a
    case (Create(pid), _) => a.(alive := a.alive + {pid})
    case (Fork(p, c, n), _) => a.(users := Forked(a.users, p, c, n))
    case (StoreByte(pid, va, _, _, _, _), _) => a.(users := Touched(a.users, Key(pid, va / PGSIZE), true))
    case (CopyTo(_, _, _), _) => a
    case (Grow(pid, oldsz, newsz), _) => a.(users := GrownTo(a.users, pid, oldsz, newsz, true))
    case (Shrink(pid, oldsz, newsz), _) => a.(users := ShrunkTo(a.users, pid, oldsz, newsz))
    case (Exit(pid, _), _) => Access(Others(a.users, pid), a.alive - {pid})
  }

  ghost function EagerRun(v: Seen, ops: seq<Op>, rs: seq<Result>): Seen
    requires |ops| == |rs|
  {
    if ops == [] then v else Eager(EagerRun(v, ops[..|ops| - 1], rs[..|rs| - 1]), ops[|ops| - 1], rs[|rs| - 1])
  }

  ghost function AccessRun(a: Access, ops: seq<Op>, rs: seq<Result>): Access
    requires |ops| == |rs|
  {
    if ops == [] then a else EagerAccess(AccessRun(a, ops[..|ops| - 1], rs[..|rs| - 1]), ops[|ops| - 1], rs[|rs| - 1])
  }

  // ---- What may be refused ----

  /** fork gives the child, which is a new process, the pages. */
  predicate NewChild(a: Access, op: Op) {
    op.Fork? ==>
      && op.parent != op.child && op.child in a.alive
      && forall i: nat :: i < op.pages ==> Key(op.child, i) !in a.users
  }

  /**
   The operation may be refused although there is memory for it: one of a process that
   is not there, growing to a smaller size, a copy that meets a page that is not the user's,
   and a store outside the process's memory. `edge` says whether a store at or above the
   process size, on a page that is there, counts as outside.
   */
  ghost predicate Refusable(a: Access, op: Op, edge: bool) {
    match op
    case Create(pid) => pid in a.alive
    case Fork(_, _, _) => !NewChild(a, op)
    case Grow(pid, oldsz, newsz) => pid !in a.alive || newsz < oldsz
    case CopyTo(pid, dst, data) => !forall i: nat :: dst <= i < dst + |data| ==> MayTouch(a.users, pid, i)
    case StoreByte(pid, va, _, sz, shm, sp) =>
      pid !in a.alive || StoreRefusable(a.users, pid, va, sz, shm, sp, edge)
    case _ => false
  }

  ghost predicate StoreRefusable(u: map<Key, bool>, pid: nat, va: nat, sz: nat, shm: nat, sp: nat, edge: bool) {
    var k := Key(pid, va / PGSIZE);
    if k in u then !u[k] || (edge && va >= sz) else !(AboveStack(sp, va) && (va < sz || va < shm))
  }

  predicate MayTouch(u: map<Key, bool>, pid: nat, a: nat) {
    Key(pid, a / PGSIZE) in u && u[Key(pid, a / PGSIZE)]
  }

  /** mappages may panic: a page of the new range is there, or the user faults on a page that is not the user's. */
  ghost predicate MayPanic(a: Access, op: Op) {
    match op
    case Grow(pid, oldsz, newsz) => exists k :: k in PagesIn(pid, oldsz, newsz) && k in a.users
    case StoreByte(pid, va, _, _, _, _) => Key(pid, va / PGSIZE) in a.users && !a.users[Key(pid, va / PGSIZE)]
    case _ => false
  }

  /**
   The answer is justified: without a refusal by kalloc, what cannot be refused is done
   in full, and what must be refused is not.
   */
  ghost predicate Justified(a: Access, op: Op, r: Result, short: bool) {
    && (r == Done ==> !short && !Refusable(a, op, false) && !MayPanic(a, op))
    && (r != Done ==> short || Refusable(a, op, true))
    && (r.Partly? ==> op.CopyTo? && r.done < |op.data| && (short || !MayTouch(a.users, op.pid, op.dst + r.done)))
    && (op.CopyTo? ==> r != Nothing)
  }

  /** The process exits with a page at or above its size, whose frame exit does not give back. */
  ghost predicate Leaks(a: Access, op: Op) {
    op.Exit? && exists k :: k in a.users && k.pid == op.pid && k.vpn * PGSIZE >= op.sz
  }

  ghost predicate Tidy(a: Access, ops: seq<Op>, rs: seq<Result>)
    requires |ops| == |rs|
  {
    ops == [] || (
      && Tidy(a, ops[..|ops| - 1], rs[..|rs| - 1])
      && !Leaks(AccessRun(a, ops[..|ops| - 1], rs[..|rs| - 1]), ops[|ops| - 1]))
  }

  // ---- What memory an operation needs ----

  /** Free frames with which kalloc refuses the operation nothing: page-table pages, copies and new pages. */
  function Need(op: Op): nat {
    match op
    case Create(_) => 1
    case Fork(_, _, n) => 2 * n
    case StoreByte(_, _, _, _, _, _) => 3
    case CopyTo(_, dst, data) => PagesOf(dst, |data|)
    case Grow(_, oldsz, newsz) => 3 * NewPages(oldsz, newsz)
    case _ => 0
  }

  function NeedAll(ops: seq<Op>): nat {
    if ops == [] then 0 else NeedAll(ops[..|ops| - 1]) + Need(ops[|ops| - 1])
  }

  lemma {:induction false} NeedsMore(ops: seq<Op>, i: nat)
    requires i <= |ops|
    ensures NeedAll(ops[..i]) <= NeedAll(ops)
  {
    if i < |ops| {
      NeedsMore(ops[..|ops| - 1], i);
      assert ops[..|ops| - 1][..i] == ops[..i];
    } else {
      assert ops[..i] == ops;
    }
  }

  // ---- One operation ----

  lemma CopyAllowed(pt: PageTables, pid: nat, dst: nat, n: nat)
    ensures (forall a: nat :: dst <= a < dst + n ==> MayTouch(Users(pt), pid, a)) <==>
      (forall a :: dst <= a < dst + n ==> UserPage(pt, pid, a))
  {
    forall a: nat
      ensures MayTouch(Users(pt), pid, a) <==> UserPage(pt, pid, a)
    {}
    if forall a: nat :: dst <= a < dst + n ==> MayTouch(Users(pt), pid, a) {
      forall a | dst <= a < dst + n
        ensures UserPage(pt, pid, a)
      {
        assert MayTouch(Users(pt), pid, a);
      }
    }
  }

  /** The operation takes no more than it needs, and kalloc refuses a frame only to one that needs more than is free. */
  ghost predicate Afforded(free: seq<seq<Frame>>, refusals: nat, free': seq<seq<Frame>>, refusals': nat, op: Op) {
    refusals' >= refusals && Spent(free, free', Need(op)) && (refusals' != refusals ==> Total(free) < Need(op))
  }

  ghost predicate MoreLost(lost: map<Frame, nat>, lost': map<Frame, nat>) {
    lost'.Keys == lost.Keys && forall f :: f in lost ==> lost'[f] >= lost[f]
  }

  /** One system call or store. When the kernel panics, it stops, and nothing more is said. */
  method Step(m: Machine, cpu: nat, op: Op) returns (r: Result, panicked: bool)
    requires m.Valid() && cpu < NCPU
    modifies m
    ensures m.Valid() && m.frames == old(m.frames) && m.refusals >= old(m.refusals)
    ensures Afforded(old(m.free), old(m.refusals), m.free, m.refusals, op)
    ensures panicked ==> MayPanic(old(AccessOf(m)), op)
    ensures !panicked ==> m.Sees() == Eager(old(m.Sees()), op, r) && AccessOf(m) == EagerAccess(old(AccessOf(m)), op, r)
    ensures !panicked ==> Justified(old(AccessOf(m)), op, r, m.refusals > old(m.refusals)) && m.Hand() == old(m.Hand())
    ensures MoreLost(old(m.lost), m.lost) && (m.lost == old(m.lost) <==> !Leaks(old(AccessOf(m)), op))
  {
    hide Good, View, Forked, Written, ShrunkTo, GrownTo, PagesIn, Others, Total, Rooted, Spare, Extended, Alive;
    panicked := false;
    match op
    case Create(pid) =>
      r := CreateStep(m, cpu, pid);
    case Fork(p, c, n) =>
      r := ForkStep(m, cpu, p, c, n);
    case StoreByte(pid, va, b, sz, shm, sp) =>
      r, panicked := StoreStep(m, cpu, pid, va, b, sz, shm, sp);
    case CopyTo(pid, dst, data) =>
      r := CopyStep(m, cpu, pid, dst, data);
    case Grow(pid, oldsz, newsz) =>
      r, panicked := GrowStep(m, cpu, pid, oldsz, newsz);
    case Shrink(pid, oldsz, newsz) =>
      UsersShrunk(m.pt, pid, oldsz, newsz);
      var sz := m.Uvmdealloc(cpu, pid, oldsz, newsz);
      r := Done;
    case Exit(pid, sz) =>
      UsersOthers(m.pt, pid);
      OneLessAlive(m.tables, pid);
      m.Uvmfree(cpu, pid, sz);
      r := Done;
  }

  lemma RootIsAlive(have: set<Table>, pid: nat)
    ensures Root(pid) in have <==> pid in Alive(have)
  {}

  method CreateStep(m: Machine, cpu: nat, pid: nat) returns (r: Result)
    requires m.Valid() && cpu < NCPU
    modifies m
    ensures m.Valid() && m.frames == old(m.frames) && m.lost == old(m.lost) && m.Hand() == old(m.Hand())
    ensures Afforded(old(m.free), old(m.refusals), m.free, m.refusals, Create(pid))
    ensures m.Sees() == Eager(old(m.Sees()), Create(pid), r)
    ensures AccessOf(m) == EagerAccess(old(AccessOf(m)), Create(pid), r)
    ensures Justified(old(AccessOf(m)), Create(pid), r, m.refusals > old(m.refusals))
  {
    hide Good, View, Total, Rooted, Spare, Alive;
    RootIsAlive(m.tables.Keys, pid);
    OneMoreAlive(m.tables.Keys, pid);
    if Root(pid) in m.tables {
      return Nothing;
    }
    var ok := m.Uvmcreate(cpu, pid);
    r := if ok then Done else Nothing;
  }

  method ForkStep(m: Machine, cpu: nat, p: nat, c: nat, n: nat) returns (r: Result)
    requires m.Valid() && cpu < NCPU
    modifies m
    ensures m.Valid() && m.frames == old(m.frames) && m.lost == old(m.lost) && m.Hand() == old(m.Hand())
    ensures Afforded(old(m.free), old(m.refusals), m.free, m.refusals, Fork(p, c, n))
    ensures m.Sees() == Eager(old(m.Sees()), Fork(p, c, n), r)
    ensures AccessOf(m) == EagerAccess(old(AccessOf(m)), Fork(p, c, n), r)
    ensures Justified(old(AccessOf(m)), Fork(p, c, n), r, m.refusals > old(m.refusals))
  {
    hide Good, View, Forked, SameFrames, SameAccess, Total, Rooted, Spare, Extended, Alive;
    RootIsAlive(m.tables.Keys, c);
    if p == c || Root(c) !in m.tables || exists i: nat :: i < n && Key(c, i) in m.pt {
      return Nothing;
    }
    NeedForkMore(m.tables.Keys, m.pt.Keys, p, c, n, n);
    var ok := m.Uvmcopy(cpu, p, c, n);
    SameAlive(old(m.tables).Keys, m.tables.Keys);
    if !ok {
      UsersSame(old(m.pt), m.pt);
    }
    r := if ok then Done else Nothing;
  }

  method StoreStep(m: Machine, cpu: nat, pid: nat, va: nat, b: Byte, sz: nat, shm: nat, sp: nat)
    returns (r: Result, panicked: bool)
    requires m.Valid() && cpu < NCPU
    modifies m
    ensures m.Valid() && m.frames == old(m.frames) && m.lost == old(m.lost)
    ensures var op := StoreByte(pid, va, b, sz, shm, sp);
      && Afforded(old(m.free), old(m.refusals), m.free, m.refusals, op)
      && (panicked ==> MayPanic(old(AccessOf(m)), op))
      && (!panicked ==> m.Sees() == Eager(old(m.Sees()), op, r) && AccessOf(m) == EagerAccess(old(AccessOf(m)), op, r))
      && (!panicked ==> Justified(old(AccessOf(m)), op, r, m.refusals > old(m.refusals)) && m.Hand() == old(m.Hand()))
  {
    hide Good, View, AboveStack, Total, Rooted, Spare, Extended, Alive;
    RootIsAlive(m.tables.Keys, pid);
    if Root(pid) !in m.tables {
      return Nothing, false;
    }
    var k := Key(pid, va / PGSIZE);
    if k in m.pt {
      MarkedIfNotWritable(m.State(), k);
    }
    var outcome := m.Store(cpu, pid, va, b, sz, shm, sp);
    SameAlive(old(m.tables).Keys, m.tables.Keys);
    panicked := outcome == Panicked;
    r := if outcome == Resumed then Done else Nothing;
  }

  method CopyStep(m: Machine, cpu: nat, pid: nat, dst: nat, data: seq<Byte>) returns (r: Result)
    requires m.Valid() && cpu < NCPU
    modifies m
    ensures m.Valid() && m.frames == old(m.frames) && m.lost == old(m.lost) && m.Hand() == old(m.Hand())
    ensures Afforded(old(m.free), old(m.refusals), m.free, m.refusals, CopyTo(pid, dst, data))
    ensures m.Sees() == Eager(old(m.Sees()), CopyTo(pid, dst, data), r) && AccessOf(m) == old(AccessOf(m))
    ensures Justified(old(AccessOf(m)), CopyTo(pid, dst, data), r, m.refusals > old(m.refusals))
  {
    hide Good, View, Written, SameAccess, SameFrames, Total, PagesOf, Rooted, Spare;
    var ok, done := m.Copyout(cpu, pid, dst, data);
    UsersSame(old(m.pt), m.pt);
    CopyAllowed(old(m.pt), pid, dst, |data|);
    assert data[..|data|] == data;
    r := if ok then Done else Partly(done);
    if !ok && m.refusals == old(m.refusals) {
      assert !UserPage(old(m.pt), pid, dst + done);
    }
  }

  method GrowStep(m: Machine, cpu: nat, pid: nat, oldsz: nat, newsz: nat) returns (r: Result, panicked: bool)
    requires m.Valid() && cpu < NCPU
    modifies m
    ensures m.Valid() && m.frames == old(m.frames) && m.lost == old(m.lost)
    ensures var op := Grow(pid, oldsz, newsz);
      && Afforded(old(m.free), old(m.refusals), m.free, m.refusals, op)
      && (panicked ==> MayPanic(old(AccessOf(m)), op))
      && (!panicked ==> m.Sees() == Eager(old(m.Sees()), op, r) && AccessOf(m) == EagerAccess(old(AccessOf(m)), op, r))
      && (!panicked ==> Justified(old(AccessOf(m)), op, r, m.refusals > old(m.refusals)) && m.Hand() == old(m.Hand()))
  {
    hide Good, View, GrownTo, PagesIn, RoundUp, Total, Rooted, Spare, Extended, Alive;
    RootIsAlive(m.tables.Keys, pid);
    if Root(pid) !in m.tables {
      return Nothing, false;
    }
    if oldsz <= newsz {
      RoundUpMore(oldsz, newsz);
      NeedGrowMore(m.tables.Keys, pid, RoundUp(oldsz), RoundUp(newsz), RoundUp(newsz));
    }
    var sz;
    sz, panicked := m.Uvmalloc(cpu, pid, oldsz, newsz);
    SameAlive(old(m.tables).Keys, m.tables.Keys);
    r := if newsz < oldsz || (sz == 0 && newsz > 0) then Nothing else Done;
  }

  lemma UsersShrunk(pt: PageTables, pid: nat, oldsz: nat, newsz: nat)
    ensures Users(ShrunkTo(pt, pid, oldsz, newsz)) == ShrunkTo(Users(pt), pid, oldsz, newsz)
  {}

  lemma UsersOthers(pt: PageTables, pid: nat)
    ensures Users(Others(pt, pid)) == Others(Users(pt), pid)
  {}

  // ---- Runs ----

  /** The `i`th answer is justified by what the eager system had come to. */
  ghost predicate JustifiedAt(a: Access, ops: seq<Op>, rs: seq<Result>, short: seq<bool>, i: nat)
    requires i < |rs| == |short| <= |ops|
  {
    Justified(AccessRun(a, ops[..i], rs[..i]), ops[i], rs[i], short[i])
  }

  /** kalloc refused a frame only if the operations so far need more than was free. */
  ghost predicate ShortAt(free: seq<seq<Frame>>, ops: seq<Op>, short: seq<bool>, i: nat)
    requires i < |short| <= |ops|
  {
    short[i] ==> Total(free) < NeedAll(ops[..i + 1])
  }

  /**
   Copy on write is indistinguishable from copying at once, over every run: after any
   operations, with the answers given, each process sees what the eager system shows,
   and every answer is justified by the eager system's state. `short[i]` says that
   kalloc refused a frame in operation i, which it does only if the operations up to that
   one need more than was free. Uses of frames are lost only by an exit with a page above
   the size. The run ends early only where the kernel panics.
   */
  method Run(m: Machine, cpus: seq<nat>, ops: seq<Op>) returns (rs: seq<Result>, ghost short: seq<bool>)
    requires m.Valid() && |cpus| == |ops| && forall i :: 0 <= i < |cpus| ==> cpus[i] < NCPU
    modifies m
    ensures m.Valid() && m.frames == old(m.frames)
    ensures |rs| == |short| <= |ops|
    ensures |rs| < |ops| ==> MayPanic(AccessRun(old(AccessOf(m)), ops[..|rs|], rs), ops[|rs|])
    ensures |rs| == |ops| ==>
      && m.Sees() == EagerRun(old(m.Sees()), ops, rs) && AccessOf(m) == AccessRun(old(AccessOf(m)), ops, rs)
      && m.Hand() == old(m.Hand()) && (m.lost == old(m.lost) <==> Tidy(old(AccessOf(m)), ops, rs))
    ensures forall i :: 0 <= i < |rs| ==> JustifiedAt(old(AccessOf(m)), ops, rs, short, i)
    ensures forall i :: 0 <= i < |short| ==> ShortAt(old(m.free), ops, short, i)
  {
    hide Good, View, Eager, EagerAccess, Justified, MayPanic, Users, Total, Need, Rooted, Spare, Alive, Leaks,
      JustifiedAt, ShortAt, AccessOf;
    rs, short := [], [];
    var i := 0;
    ghost var a, free, v := AccessOf(m), m.free, m.Sees();
    while i < |ops|
      invariant 0 <= i <= |ops| && |rs| == |short| == i
      invariant m.Valid() && m.frames == old(m.frames) && m.Hand() == old(m.Hand())
      invariant m.Sees() == EagerRun(v, ops[..i], rs)
      invariant AccessOf(m) == AccessRun(a, ops[..i], rs)
      invariant MoreLost(old(m.lost), m.lost) && (m.lost == old(m.lost) <==> Tidy(a, ops[..i], rs))
      invariant Spent(free, m.free, NeedAll(ops[..i]))
      invariant forall j :: 0 <= j < i ==> JustifiedAt(a, ops, rs, short, j)
      invariant forall j :: 0 <= j < i ==> ShortAt(free, ops, short, j)
    {
      ghost var before, lost := m.refusals, m.lost;
      var r, panicked := Step(m, cpus[i], ops[i]);
      if panicked {
        return;
      }
      assert ops[..i + 1][..i] == ops[..i] && (rs + [r])[..i] == rs;
      LostSince(old(m.lost), lost, m.lost);
      JustifiedOneMore(a, ops, rs, short, r, m.refusals > before);
      ShortOneMore(free, ops, short, m.refusals > before);
      rs, short := rs + [r], short + [m.refusals > before];
      i := i + 1;
    }
    assert ops[..i] == ops;
  }

  lemma LostSince(l: map<Frame, nat>, l1: map<Frame, nat>, l2: map<Frame, nat>)
    requires MoreLost(l, l1) && MoreLost(l1, l2)
    ensures MoreLost(l, l2) && (l2 == l <==> l1 == l && l2 == l1)
  {
    if l2 == l {
      assert l1 == l;
    }
  }

  lemma JustifiedOneMore(a: Access, ops: seq<Op>, rs: seq<Result>, short: seq<bool>, r: Result, s: bool)
    requires |rs| == |short| < |ops| && forall i :: 0 <= i < |rs| ==> JustifiedAt(a, ops, rs, short, i)
    requires Justified(AccessRun(a, ops[..|rs|], rs), ops[|rs|], r, s)
    ensures forall i :: 0 <= i <= |rs| ==> JustifiedAt(a, ops, rs + [r], short + [s], i)
  {
    hide Justified, AccessRun;
    forall i | 0 <= i <= |rs|
      ensures JustifiedAt(a, ops, rs + [r], short + [s], i)
    {
      if i < |rs| {
        assert (rs + [r])[..i] == rs[..i] && JustifiedAt(a, ops, rs, short, i);
      } else {
        assert (rs + [r])[..i] == rs;
      }
    }
  }

  lemma ShortOneMore(free: seq<seq<Frame>>, ops: seq<Op>, short: seq<bool>, s: bool)
    requires |short| < |ops| && forall i :: 0 <= i < |short| ==> ShortAt(free, ops, short, i)
    requires s ==> Total(free) < NeedAll(ops[..|short| + 1])
    ensures forall i :: 0 <= i <= |short| ==> ShortAt(free, ops, short + [s], i)
  {
    hide Total, NeedAll;
    forall i | 0 <= i <= |short|
      ensures ShortAt(free, ops, short + [s], i)
    {
      assert i < |short| ==> ShortAt(free, ops, short, i);
    }
  }

  /** The eager system, doing every operation in full, permits each of them and panics at none. */
  ghost predicate Permitted(a: Access, ops: seq<Op>) {
    forall i :: 0 <= i < |ops| ==> PermittedAt(a, ops, i)
  }

  ghost predicate PermittedAt(a: Access, ops: seq<Op>, i: nat)
    requires i < |ops|
  {
    !Refusable(AllDone(a, ops[..i]), ops[i], true) && !MayPanic(AllDone(a, ops[..i]), ops[i])
  }

  ghost function AllDone(a: Access, ops: seq<Op>): Access {
    AccessRun(a, ops, seq(|ops|, _ => Done))
  }

  /** Answers that are justified, with nothing refused, to operations that are permitted are all `Done`. */
  lemma {:induction false} DoneAll(a: Access, ops: seq<Op>, rs: seq<Result>, short: seq<bool>, i: nat)
    requires |rs| == |short| <= |ops| && forall j :: 0 <= j < |rs| ==> JustifiedAt(a, ops, rs, short, j)
    requires Permitted(a, ops) && i <= |rs|
    requires forall j :: 0 <= j < |short| ==> !short[j]
    ensures rs[..i] == seq(i, _ => Done)
  {
    hide Refusable, MayPanic, AccessRun;
    if i > 0 {
      DoneAll(a, ops, rs, short, i - 1);
      assert JustifiedAt(a, ops, rs, short, i - 1) && PermittedAt(a, ops, i - 1);
      assert rs[..i] == rs[..i - 1] + [Done];
    }
  }

  lemma NoPanicNext(a: Access, ops: seq<Op>, rs: seq<Result>)
    requires Permitted(a, ops) && |rs| <= |ops| && rs == seq(|rs|, _ => Done)
    ensures |rs| < |ops| ==> !MayPanic(AccessRun(a, ops[..|rs|], rs), ops[|rs|])
  {
    hide MayPanic, AccessRun;
    if |rs| < |ops| {
      assert PermittedAt(a, ops, |rs|);
    }
  }

  /**
   With frames enough for all of them, operations that the eager system permits are all
   done, and each process sees what the eager system shows.
   */
  method RunInFull(m: Machine, cpus: seq<nat>, ops: seq<Op>) returns (rs: seq<Result>)
    requires m.Valid() && |cpus| == |ops| && forall i :: 0 <= i < |cpus| ==> cpus[i] < NCPU
    requires Total(m.free) >= NeedAll(ops) && Permitted(AccessOf(m), ops)
    modifies m
    ensures m.Valid() && rs == seq(|ops|, _ => Done)
    ensures m.Sees() == EagerRun(old(m.Sees()), ops, rs)
  {
    hide Good, View, EagerRun, MayPanic, Refusable, Total, Need, AccessRun, AccessOf, JustifiedAt, Permitted, Rooted;
    ghost var a := AccessOf(m);
    ghost var short;
    rs, short := Run(m, cpus, ops);
    forall i | 0 <= i < |short|
      ensures !short[i]
    {
      assert ShortAt(old(m.free), ops, short, i);
      NeedsMore(ops, i + 1);
    }
    DoneAll(a, ops, rs, short, |rs|);
    assert rs[..|rs|] == rs;
    NoPanicNext(a, ops, rs);
  }

  /**
   Every frame comes back: when a run begins and ends without processes, and none of them
   exits with a page above its size, as many frames are free as before, page-table pages
   included.
   */
  method RunAndReturn(m: Machine, cpus: seq<nat>, ops: seq<Op>) returns (rs: seq<Result>)
    requires m.Valid() && |cpus| == |ops| && forall i :: 0 <= i < |cpus| ==> cpus[i] < NCPU
    requires AccessOf(m).alive == {}
    modifies m
    ensures m.Valid() && |rs| <= |ops|
    ensures |rs| < |ops| ==> MayPanic(AccessRun(old(AccessOf(m)), ops[..|rs|], rs), ops[|rs|])
    ensures |rs| == |ops| && AccessRun(old(AccessOf(m)), ops, rs).alive == {} && Tidy(old(AccessOf(m)), ops, rs) ==>
      Total(m.free) == Total(old(m.free))
  {
    hide Good, View, EagerRun, MayPanic, Total, AccessRun, Rooted, Spare, Alive, Users, Maps, Tidy;
    ghost var s := m.State();
    FreeAreUnused(s);
    NoneAlive(m.tables, m.kernel, m.pt);
    ghost var short;
    rs, short := Run(m, cpus, ops);
    FreeAreUnused(m.State());
    if |rs| == |ops| && Alive(m.tables.Keys) == {} {
      NoneAlive(m.tables, m.kernel, m.pt);
      if m.lost == old(m.lost) {
        assert Unused(m.State()) == Unused(s);
      }
    }
  }

  // ---- Two runs that show a difference ----

  /**
   A store below the start of shared memory but above the size is given a page, and exit
   does not give its frame back.
   */
  method LeakAtExit() returns (m: Machine)
    ensures m.Valid() && m.pt == map[] && exists f :: f in m.lost && m.lost[f] > 0
  {
    hide Good, View, Total, Rooted, Spare, Users, Extended, Filled;
    m := new Machine();
    m.Freerange(0, 8, 0);
    var made := m.Uvmcreate(0, 1);
    var outcome := m.Store(0, 1, 0x10000, 7, 0x1000, 0x80000000, 0x1000);
    ghost var before := m.lost;
    assert Key(1, 16) in m.pt;
    m.Uvmfree(0, 1, 0x1000);
    ghost var f :| f in m.lost && m.lost[f] != before[f];
  }

  /** A machine with two processes and `n - 2` frames. */
  method TwoProcesses(n: nat) returns (m: Machine)
    requires n >= 2
    ensures fresh(m) && m.Valid() && m.pt == map[] && m.tables.Keys == {Root(1), Root(2)} && Total(m.free) == n - 2
  {
    hide Good, View, Total, Rooted, Spare;
    m := new Machine();
    m.Freerange(0, n, 0);
    var parent := m.Uvmcreate(0, 1);
    var child := m.Uvmcreate(0, 2);
  }

  /**
   A store at or above the process size on the last page of the process works before a
   fork and kills the process after it: the copy-on-write fault has a test the plain
   store has not.
   */
  method ForkShowsAtTheEdge() returns (before: Outcome, after: Outcome)
    ensures before == Resumed && after == Killed
  {
    hide Good, View, Forked, Total, Rooted, Spare, Filled, SameFrames, HaveFork, Users;
    var m := TwoProcesses(18);
    var first := m.Store(0, 1, 0x1008, 7, 0x1010, 0x1010, 0x1000);
    before := m.Store(0, 1, 0x1020, 7, 0x1010, 0x1010, 0x1000);
    ghost var u := Users(m.pt);
    NeedForkMore(m.tables.Keys, m.pt.Keys, 1, 2, 2, 2);
    var forked := m.Uvmcopy(0, 1, 2, 2);
    ForkedAt(u, 1, 2, 2, Key(1, 1));
    assert Key(1, 1) in m.pt && !m.pt[Key(1, 1)].w;
    MarkedIfNotWritable(m.State(), Key(1, 1));
    after := m.Store(0, 1, 0x1020, 7, 0x1010, 0x1010, 0x1000);
  }
}
