/**
 The buffer cache used by any number of processes at once, over all interleavings.

 A step is one action between two points where another processor may act: taking a
 bucket lock or a buffer's sleep lock, or what is done under a bucket lock up to its
 release. A user is one use of a buffer, from bget to brelse; a process that has
 several buffers at a time is several users. Module SleepLock has the protocol inside
 a sleep lock, and module BufferCache the same calls one at a time.
 */
module CacheRuns {
  import opened Blocks
  import opened BufferCache
  import opened Common
  import opened Tables

  /** Where a user is: `b` is the block it asked for, `x` the buffer it has got. */
  datatype Pc =
    | Idle
    | Want(b: nat)                      // bget: acquire the lock of bucket bid
    | Looking(b: nat)                   // look for the block on bid
    | Missed(b: nat, n: nat)            // n buckets have been searched in vain; after NBUCKET of them bget panics
    | Scanning(b: nat, n: nat)          // look for an unused buffer on the next bucket, holding its lock too
    | Flying(b: nat, x: nat)            // unlinked from the other bucket, whose lock is released
    | Linked(b: nat, x: nat)            // on bid, still under its old number
    | Claimed(b: nat, x: nat)           // counted; release the lock of bid
    | Waiting(b: nat, x: nat)           // acquiresleep
    | Reading(b: nat, x: nat)           // bread: test valid, read the disk
    | Holding(b: nat, x: nat)           // bread has returned
    | Pinning(b: nat, x: nat, up: bool) // bpin or bunpin: acquire the lock of the block's bucket
    | PinLocked(b: nat, x: nat, up: bool)
    | Dropping(b: nat, x: nat)          // brelse: the sleep lock is released; acquire the lock of the block's bucket
    | DropLocked(b: nat, x: nat)

  /**
   `locks` and `holder` name the user that has each bucket lock and each buffer's sleep
   lock. `pinned` and `mover` are not read by the code: the buffers bpin has counted, and
   the user that is moving a buffer to another block.
   */
  datatype State = State(bufs: seq<Buf>, buckets: seq<seq<nat>>, locks: seq<Option<nat>>, holder: seq<Option<nat>>,
                         pinned: seq<bool>, mover: seq<Option<nat>>, disk: Disk, users: seq<Pc>)

  datatype Act =
    | Enter(block: nat) | LockBid | Hit(hit: nat, now: nat) | Miss | LockNext | Pass
    | TakeOwn(victim: nat) | Steal(victim: nat) | Relink | Renumber(now: nat) | ReleaseBid
    | AcquireSleep | Fill | Modify(data: Block) | Write
    | CallPin(add: bool) | LockPin | Pin
    | LetGo | LockDrop | Drop(now: nat)

  datatype Step = Step(p: nat, act: Act)

  // ---- Steps ----

  /** The bucket that is searched after `n` others. */
  function Nth(b: nat, n: nat): (h: nat)
    ensures h < NBUCKET
  {
    (Hash(b) + n) % NBUCKET
  }

  ghost predicate Sized(s: State) {
    && |s.bufs| == |s.holder| == |s.pinned| == |s.mover| == NBUF
    && |s.buckets| == |s.locks| == NBUCKET
    && |s.users| < UINT_LIMIT - 1
  }

  /** `x` is the least recently used of the unused buffers of a bucket. */
  ghost predicate Oldest(bufs: seq<Buf>, bucket: seq<nat>, x: nat) {
    && x in bucket && x < |bufs| && bufs[x].refcnt == 0
    && forall y :: y in bucket && y < |bufs| && bufs[y].refcnt == 0 ==> bufs[x].timestamp <= bufs[y].timestamp
  }

  function Goto(s: State, p: nat, pc: Pc): State
    requires p < |s.users|
  {
    s.(users := s.users[p := pc])
  }

  /** `p` takes bucket lock `h`. */
  ghost predicate Takes(s: State, p: nat, h: nat, pc: Pc, s': State)
    requires p < |s.users| && h < |s.locks|
  {
    s.locks[h] == None && s' == Goto(s, p, pc).(locks := s.locks[h := Some(p)])
  }

  function Update(s: State, p: nat, pc: Pc, x: nat, buf: Buf): State
    requires p < |s.users| && x < |s.bufs|
  {
    Goto(s, p, pc).(bufs := s.bufs[x := buf])
  }

  /** bget up to the choice of a buffer. */
  ghost predicate Searches(s: State, p: nat, act: Act, s': State)
    requires Sized(s) && p < |s.users|
  {
    match (s.users[p], act)
    case (Idle, Enter(b)) => b < |s.disk| && s' == Goto(s, p, Want(b))
    case (Want(b), LockBid) => Takes(s, p, Hash(b), Looking(b), s')
    case (Looking(b), Hit(x, t)) =>
      && x < NBUF && x in s.buckets[Hash(b)] && Holds(s.bufs[x], b)
      && s' == Update(s, p, Claimed(b, x), x, s.bufs[x].(refcnt := Inc(s.bufs[x].refcnt), timestamp := t))
    case (Looking(b), Miss) =>
      && (forall x :: x in s.buckets[Hash(b)] && x < NBUF ==> !Holds(s.bufs[x], b))
      && s' == Goto(s, p, Missed(b, 0))
    case (Missed(b, n), LockNext) =>
      && n < NBUCKET
      && if n == 0 then s' == Goto(s, p, Scanning(b, n)) else Takes(s, p, Nth(b, n), Scanning(b, n), s')
    case (Scanning(b, n), Pass) =>
      && (forall x :: x in s.buckets[Nth(b, n)] && x < NBUF ==> s.bufs[x].refcnt != 0)
      && s' == Goto(s, p, Missed(b, n + 1)).(locks := if n == 0 then s.locks else s.locks[Nth(b, n) := None])
    case _ => false
  }

  /** bget from the choice of a buffer: unlink it, link it on bid, give it the new number. */
  ghost predicate Recycles(s: State, p: nat, act: Act, s': State)
    requires Sized(s) && p < |s.users|
  {
    match (s.users[p], act)
    case (Scanning(b, n), TakeOwn(x)) =>
      && n == 0 && x < NBUF && Oldest(s.bufs, s.buckets[Nth(b, n)], x)
      && s' == Goto(s, p, Linked(b, x)).(mover := s.mover[x := Some(p)])
    case (Scanning(b, n), Steal(x)) =>
      && n != 0 && x < NBUF && Oldest(s.bufs, s.buckets[Nth(b, n)], x)
      && s' == Goto(s, p, Flying(b, x)).(mover := s.mover[x := Some(p)], locks := s.locks[Nth(b, n) := None],
                 buckets := s.buckets[Nth(b, n) := Without(s.buckets[Nth(b, n)], x)])
    case (Flying(b, x), Relink) =>
      s' == Goto(s, p, Linked(b, x)).(buckets := s.buckets[Hash(b) := [x] + s.buckets[Hash(b)]])
    case (Linked(b, x), Renumber(t)) =>
      && x < NBUF
      && var buf := s.bufs[x].(dev := ROOTDEV, blockno := b, valid := false, refcnt := 1, timestamp := t);
      && s' == Update(s, p, Claimed(b, x), x, buf).(mover := s.mover[x := None])
    case (Claimed(b, x), ReleaseBid) => s' == Goto(s, p, Waiting(b, x)).(locks := s.locks[Hash(b) := None])
    case _ => false
  }

  /** What the holder of a buffer does with it. */
  ghost predicate Uses(s: State, p: nat, act: Act, s': State)
    requires Sized(s) && p < |s.users|
  {
    match (s.users[p], act)
    case (Waiting(b, x), AcquireSleep) =>
      && x < NBUF && s.holder[x] == None
      && s' == Update(s, p, Reading(b, x), x, s.bufs[x].(locked := true)).(holder := s.holder[x := Some(p)])
    case (Reading(b, x), Fill) =>
      && x < NBUF && b < |s.disk|
      && var buf := if s.bufs[x].valid then s.bufs[x] else s.bufs[x].(valid := true, data := s.disk[b]);
      && s' == Update(s, p, Holding(b, x), x, buf)
    case (Holding(b, x), Modify(data)) =>
      && x < NBUF
      && s' == Update(s, p, Holding(b, x), x, s.bufs[x].(data := data))
    case (Holding(b, x), Write) =>
      && x < NBUF && b < |s.disk|
      && s' == s.(disk := s.disk[b := s.bufs[x].data])
    case _ => false
  }

  /**
   bpin, bunpin and brelse. The log pins a block once and unpins what it has pinned, and
   a buffer that differs from the disk is released only if it is pinned.
   */
  ghost predicate Counts(s: State, p: nat, act: Act, s': State)
    requires Sized(s) && p < |s.users|
  {
    match (s.users[p], act)
    case (Holding(b, x), CallPin(up)) => s' == Goto(s, p, Pinning(b, x, up))
    case (Pinning(b, x, up), LockPin) => Takes(s, p, Hash(b), PinLocked(b, x, up), s')
    case (PinLocked(b, x, up), Pin) =>
      && x < NBUF && s.pinned[x] != up
      && var n := s.bufs[x].refcnt;
      && s' == Update(s, p, Holding(b, x), x, s.bufs[x].(refcnt := if up then Inc(n) else Dec(n)))
               .(pinned := s.pinned[x := up], locks := s.locks[Hash(b) := None])
    case (Holding(b, x), LetGo) =>
      && x < NBUF && b < |s.disk| && (s.pinned[x] || s.bufs[x].data == s.disk[b])
      && s' == Update(s, p, Dropping(b, x), x, s.bufs[x].(locked := false)).(holder := s.holder[x := None])
    case (Dropping(b, x), LockDrop) => Takes(s, p, Hash(b), DropLocked(b, x), s')
    case (DropLocked(b, x), Drop(t)) =>
      && x < NBUF
      && s' == Update(s, p, Idle, x, s.bufs[x].(refcnt := Dec(s.bufs[x].refcnt), timestamp := t))
               .(locks := s.locks[Hash(b) := None])
    case _ => false
  }

  ghost predicate Next(s: State, e: Step, s': State) {
    && Sized(s) && e.p < |s.users|
    && (Searches(s, e.p, e.act, s') || Recycles(s, e.p, e.act, s') || Uses(s, e.p, e.act, s')
         || Counts(s, e.p, e.act, s'))
  }

  /** binit: every buffer unused and on bucket 0. */
  ghost predicate Init(s: State) {
    && Sized(s)
    && (forall x :: 0 <= x < NBUF ==> s.bufs[x].dev != ROOTDEV && s.bufs[x].blockno == 0 && s.bufs[x].refcnt == 0)
    && (forall x :: 0 <= x < NBUF ==> !s.bufs[x].locked && s.holder[x] == None && !s.pinned[x] && s.mover[x] == None)
    && (forall h :: 0 <= h < NBUCKET ==> s.locks[h] == None && Distinct(s.buckets[h]))
    && (forall h, x {:trigger x in s.buckets[h]} :: 0 <= h < NBUCKET ==>
          (x in s.buckets[h] <==> h == 0 && 0 <= x < NBUF))
    && (forall p :: 0 <= p < |s.users| ==> s.users[p] == Idle)
  }

  ghost predicate Run(states: seq<State>, steps: seq<Step>) {
    && |states| == |steps| + 1
    && Init(states[0])
    && forall i :: 0 <= i < |steps| ==> Next(states[i], steps[i], states[i + 1])
  }

  // ---- The invariant ----

  predicate HasBid(pc: Pc) {
    pc.Looking? || pc.Missed? || pc.Scanning? || pc.Flying? || pc.Linked? || pc.Claimed? || pc.PinLocked?
      || pc.DropLocked?
  }

  predicate Owns(pc: Pc, h: nat) {
    (HasBid(pc) && Hash(pc.b) == h) || (pc.Scanning? && Nth(pc.b, pc.n) == h)
  }

  /** Between the count in bget and the count in brelse. */
  predicate Refers(pc: Pc) {
    pc.Claimed? || pc.Waiting? || pc.Reading? || pc.Holding? || pc.Pinning? || pc.PinLocked? || pc.Dropping?
      || pc.DropLocked?
  }

  predicate RefersTo(pc: Pc, x: nat) {
    Refers(pc) && pc.x == x
  }

  predicate Has(pc: Pc, x: nat) {
    (pc.Reading? || pc.Holding? || pc.Pinning? || pc.PinLocked?) && pc.x == x
  }

  predicate Moves(pc: Pc, x: nat) {
    (pc.Flying? || pc.Linked?) && pc.x == x
  }

  /** Has found, under the lock of its bucket, that its block is not cached. */
  predicate Seeks(pc: Pc) {
    pc.Missed? || pc.Scanning? || pc.Flying? || pc.Linked?
  }

  ghost predicate LocksOk(s: State) {
    Owned(s.locks, s.users, Owns)
  }

  ghost predicate HoldersOk(s: State)
    requires Sized(s)
  {
    && Owned(s.holder, s.users, Has)
    && forall x :: 0 <= x < NBUF ==> (s.bufs[x].locked <==> s.holder[x].Some?)
  }

  ghost predicate MoversOk(s: State)
    requires Sized(s)
  {
    && Owned(s.mover, s.users, Moves)
    && forall x :: 0 <= x < NBUF && s.mover[x].Some? ==> s.bufs[x].refcnt == 0
  }

  /** The bucket buffer `x` is on: none while it is in flight, the mover's bid once it is linked there. */
  function Home(s: State, x: nat): Option<nat>
    requires x < |s.mover| && x < |s.bufs|
  {
    match s.mover[x]
    case None => Some(Hash(s.bufs[x].blockno))
    case Some(p) => if p < |s.users| && s.users[p].Linked? then Some(Hash(s.users[p].b)) else None
  }

  ghost predicate IndexOk(s: State)
    requires Sized(s)
  {
    && (forall h :: 0 <= h < NBUCKET ==> Distinct(s.buckets[h]))
    && forall h, x {:trigger x in s.buckets[h]} :: 0 <= h < NBUCKET ==>
         (x in s.buckets[h] <==> 0 <= x < NBUF && Home(s, x) == Some(h))
  }

  /** A buffer that stands for a disk block: not one that was never used or is on its way to another block. */
  predicate Settled(s: State, x: nat, b: nat)
    requires x < |s.mover| && x < |s.bufs|
  {
    s.mover[x] == None && Holds(s.bufs[x], b)
  }

  ghost predicate UniqueOk(s: State)
    requires Sized(s)
  {
    && (forall x, y, b :: 0 <= x < NBUF && 0 <= y < NBUF && Settled(s, x, b) && Settled(s, y, b) ==> x == y)
    && (forall p, x :: 0 <= p < |s.users| && 0 <= x < NBUF && Seeks(s.users[p]) ==> !Settled(s, x, s.users[p].b))
  }

  /** What a user remembers of its block and buffer is so. */
  ghost predicate UserOk(s: State, p: nat)
    requires Sized(s) && p < |s.users|
  {
    var pc := s.users[p];
    && (pc != Idle ==> pc.b < |s.disk|)
    && (pc.Missed? ==> pc.n <= NBUCKET)
    && (pc.Scanning? ==> pc.n < NBUCKET)
    && (pc.Flying? || pc.Linked? ==> pc.x < NBUF)
    && (Refers(pc) ==> pc.x < NBUF && Settled(s, pc.x, pc.b))
    && (pc.Holding? || pc.Pinning? || pc.PinLocked? ==> s.bufs[pc.x].valid)
  }

  ghost predicate UsersOk(s: State)
    requires Sized(s)
  {
    forall p :: 0 <= p < |s.users| ==> UserOk(s, p)
  }

  ghost predicate CountsOk(s: State)
    requires Sized(s)
  {
    forall x :: 0 <= x < NBUF ==> s.bufs[x].refcnt == Tally(s.users, RefersTo, x) + if s.pinned[x] then 1 else 0
  }

  /** A buffer in order: a cached block exists, and what nobody holds and the log has not pinned is on disk. */
  ghost predicate BufferOk(s: State, x: nat)
    requires Sized(s) && x < NBUF
  {
    var buf := s.bufs[x];
    && (buf.dev == ROOTDEV ==> buf.blockno < |s.disk|)
    && (buf.dev == ROOTDEV && s.mover[x] == None && buf.valid && s.holder[x] == None && !s.pinned[x] ==>
          buf.data == s.disk[buf.blockno])
  }

  ghost predicate BuffersOk(s: State)
    requires Sized(s)
  {
    forall x :: 0 <= x < NBUF ==> BufferOk(s, x)
  }

  ghost predicate Inv(s: State) {
    && Sized(s) && LocksOk(s) && HoldersOk(s) && MoversOk(s) && IndexOk(s) && UniqueOk(s) && UsersOk(s) && CountsOk(s)
    && BuffersOk(s)
  }

  // ---- Every step keeps it ----

  lemma NthIsAnother(b: nat, n: nat)
    requires n < NBUCKET
    ensures Nth(b, n) == Hash(b) <==> n == 0
  {}

  /** Under a bucket's lock, the buffers on it are settled there. */
  lemma SettledUnderLock(s: State, p: nat, h: nat, x: nat)
    requires Sized(s) && LocksOk(s) && MoversOk(s) && IndexOk(s) && p < |s.users| && h < NBUCKET
    requires Owns(s.users[p], h) && !s.users[p].Linked? && x in s.buckets[h]
    ensures x < NBUF && s.mover[x] == None && Hash(s.bufs[x].blockno) == h
  {
    if s.mover[x].Some? {
      var q := s.mover[x].value;
      OwnerAt(s.mover, s.users, Moves, q, x);
      OwnerAt(s.locks, s.users, Owns, q, h);
      OwnerAt(s.locks, s.users, Owns, p, h);
    }
  }

  /** No buffer that a user counts on is unused. */
  lemma UnusedHasNoUser(s: State, x: nat, q: nat)
    requires Sized(s) && CountsOk(s) && x < NBUF && q < |s.users| && s.bufs[x].refcnt == 0
    ensures !RefersTo(s.users[q], x) && !s.pinned[x]
  {
    if RefersTo(s.users[q], x) {
      TallySome(s.users, RefersTo, x, q);
    }
  }

  lemma UnusedIsUnheld(s: State, x: nat)
    requires Sized(s) && CountsOk(s) && HoldersOk(s) && x < NBUF && s.bufs[x].refcnt == 0
    ensures s.holder[x] == None && !s.pinned[x]
  {
    if s.holder[x].Some? {
      OwnerAt(s.holder, s.users, Has, s.holder[x].value, x);
      UnusedHasNoUser(s, x, s.holder[x].value);
    }
  }

  /** Only user `p` has moved on. */
  ghost predicate OneMoved(s: State, p: nat, s': State) {
    && Sized(s) && Sized(s') && |s'.disk| == |s.disk| && p < |s.users| == |s'.users|
    && s'.users == s.users[p := s'.users[p]]
  }

  /** A step that moves no buffer: the index is as it was, and so is the block of every buffer. */
  ghost predicate SameIndex(s: State, p: nat, s': State) {
    && OneMoved(s, p, s')
    && s'.buckets == s.buckets && s'.mover == s.mover
    && (forall x :: 0 <= x < NBUF ==> s'.bufs[x].dev == s.bufs[x].dev && s'.bufs[x].blockno == s.bufs[x].blockno)
    && !s.users[p].Flying? && !s.users[p].Linked? && !s'.users[p].Flying? && !s'.users[p].Linked?
  }

  lemma IndexKept(s: State, p: nat, s': State)
    requires SameIndex(s, p, s') && IndexOk(s)
    ensures IndexOk(s')
  {
    forall h, x | 0 <= h < NBUCKET
      ensures x in s'.buckets[h] <==> 0 <= x < NBUF && Home(s', x) == Some(h)
    {}
  }

  lemma UniqueKept(s: State, p: nat, s': State)
    requires SameIndex(s, p, s') && UniqueOk(s)
    requires Seeks(s'.users[p]) ==> forall x :: 0 <= x < NBUF ==> !Settled(s, x, s'.users[p].b)
    ensures UniqueOk(s')
  {
    assert forall x, b :: 0 <= x < NBUF ==> (Settled(s', x, b) <==> Settled(s, x, b));
  }

  lemma UsersKept(s: State, p: nat, s': State)
    requires SameIndex(s, p, s') && UsersOk(s) && UserOk(s', p)
    requires forall x :: 0 <= x < NBUF && s.bufs[x].valid ==> s'.bufs[x].valid
    ensures UsersOk(s')
  {
    forall q | 0 <= q < |s'.users|
      ensures UserOk(s', q)
    {
      assert UserOk(s, q);
    }
  }

  /** Users of other buffers do not notice what happens to an unused one. */
  lemma OtherUsers(s: State, p: nat, x: nat, s': State)
    requires OneMoved(s, p, s') && UsersOk(s) && CountsOk(s) && UserOk(s', p) && x < NBUF && s.bufs[x].refcnt == 0
    requires forall y :: 0 <= y < NBUF && y != x ==> s'.bufs[y] == s.bufs[y] && s'.mover[y] == s.mover[y]
    ensures UsersOk(s')
  {
    forall q | 0 <= q < |s'.users|
      ensures UserOk(s', q)
    {
      UnusedHasNoUser(s, x, q);
      assert UserOk(s, q);
    }
  }

  lemma CountsKept(s: State, p: nat, s': State)
    requires OneMoved(s, p, s') && CountsOk(s) && s'.pinned == s.pinned
    requires forall x :: 0 <= x < NBUF ==> s'.bufs[x].refcnt == s.bufs[x].refcnt
    requires forall x :: 0 <= x < NBUF ==> (RefersTo(s'.users[p], x) <==> RefersTo(s.users[p], x))
    ensures CountsOk(s')
  {
    forall x | 0 <= x < NBUF
      ensures Tally(s'.users, RefersTo, x) == Tally(s.users, RefersTo, x)
    {
      TallyWith(s.users, RefersTo, x, p, s'.users[p]);
    }
  }

  /** A step that only moves a user on and takes or releases bucket locks. */
  lemma MovesOn(s: State, p: nat, pc: Pc, locks: seq<Option<nat>>, s': State)
    requires Inv(s) && p < |s.users| && |locks| == NBUCKET && s' == Goto(s, p, pc).(locks := locks)
    requires LocksOk(s') && UserOk(s', p) && !s.users[p].Flying? && !s.users[p].Linked? && !pc.Flying? && !pc.Linked?
    requires forall x :: 0 <= x < NBUF ==>
      (RefersTo(pc, x) <==> RefersTo(s.users[p], x)) && (Has(pc, x) <==> Has(s.users[p], x))
    requires Seeks(pc) ==> forall x :: 0 <= x < NBUF ==> !Settled(s, x, pc.b)
    ensures Inv(s')
  {
    hide LocksOk, IndexOk, UniqueOk, UsersOk, CountsOk, BuffersOk;
    OwnersKeep(s.holder, s.users, Has, p, pc);
    OwnersKeep(s.mover, s.users, Moves, p, pc);
    IndexKept(s, p, s');
    UniqueKept(s, p, s');
    UsersKept(s, p, s');
    CountsKept(s, p, s');
    BuffersSame(s, s');
  }

  lemma BuffersSame(s: State, s': State)
    requires Sized(s) && Sized(s') && BuffersOk(s)
    requires s'.bufs == s.bufs && s'.holder == s.holder && s'.pinned == s.pinned && s'.mover == s.mover
    requires s'.disk == s.disk
    ensures BuffersOk(s')
  {
    forall x | 0 <= x < NBUF
      ensures BufferOk(s', x)
    {
      assert BufferOk(s, x);
    }
  }

  lemma AbsentAfterMiss(s: State, b: nat)
    requires Sized(s) && IndexOk(s) && forall x :: x in s.buckets[Hash(b)] && x < NBUF ==> !Holds(s.bufs[x], b)
    ensures forall x :: 0 <= x < NBUF ==> !Settled(s, x, b)
  {
    forall x | 0 <= x < NBUF
      ensures !Settled(s, x, b)
    {
      assert s.mover[x] == None && s.bufs[x].blockno == b ==> x in s.buckets[Hash(b)];
    }
  }

  lemma SearchKeeps(s: State, p: nat, act: Act, s': State)
    requires Inv(s) && p < |s.users| && Searches(s, p, act, s') && !act.Hit?
    ensures Inv(s')
  {
    hide Hash, Nth, IndexOk, UniqueOk, CountsOk, BuffersOk, HoldersOk, MoversOk, Owned, Distinct;
    assert UserOk(s, p);
    var pc, to := s.users[p], s'.users[p];
    match act {
      case Enter(b) => OwnersKeep(s.locks, s.users, Owns, p, to);
      case LockBid => OwnersTake(s.locks, s.users, Owns, p, to, Hash(pc.b));
      case Miss =>
        OwnersKeep(s.locks, s.users, Owns, p, to);
        AbsentAfterMiss(s, pc.b);
      case LockNext =>
        NthIsAnother(pc.b, pc.n);
        Absent(s, p);
        if pc.n == 0 {
          OwnersKeep(s.locks, s.users, Owns, p, to);
        } else {
          OwnersTake(s.locks, s.users, Owns, p, to, Nth(pc.b, pc.n));
        }
      case Pass =>
        NthIsAnother(pc.b, pc.n);
        Absent(s, p);
        if pc.n == 0 {
          OwnersKeep(s.locks, s.users, Owns, p, to);
        } else {
          OwnersFree(s.locks, s.users, Owns, p, to, Nth(pc.b, pc.n));
        }
    }
    MovesOn(s, p, to, s'.locks, s');
  }

  lemma Absent(s: State, p: nat)
    requires Sized(s) && UniqueOk(s) && p < |s.users| && Seeks(s.users[p])
    ensures forall x :: 0 <= x < NBUF ==> !Settled(s, x, s.users[p].b)
  {}

  /** What a buffer's own lines say, for a step on another buffer. */
  lemma OtherBuffers(s: State, x: nat, s': State)
    requires Sized(s) && Sized(s') && BuffersOk(s) && |s'.disk| == |s.disk| && x < NBUF && BufferOk(s', x)
    requires forall y :: 0 <= y < NBUF && y != x ==>
               s'.bufs[y] == s.bufs[y] && s'.holder[y] == s.holder[y] && s'.pinned[y] == s.pinned[y]
                 && s'.mover[y] == s.mover[y]
    requires s'.disk == s.disk
    ensures BuffersOk(s')
  {
    forall y | 0 <= y < NBUF
      ensures BufferOk(s', y)
    {
      assert BufferOk(s, y);
    }
  }

  function Bit(b: bool): int {
    if b then 1 else 0
  }

  /** A step that counts one use of `x` more or fewer, by a user or by the log. */
  lemma CountsChanged(s: State, p: nat, x: nat, s': State)
    requires OneMoved(s, p, s') && CountsOk(s) && x < NBUF
    requires forall y :: 0 <= y < NBUF && y != x ==>
      s'.bufs[y].refcnt == s.bufs[y].refcnt && s'.pinned[y] == s.pinned[y]
    requires forall y :: 0 <= y < NBUF && y != x ==> (RefersTo(s'.users[p], y) <==> RefersTo(s.users[p], y))
    requires s'.bufs[x].refcnt + Bit(RefersTo(s.users[p], x)) + Bit(s.pinned[x]) ==
             s.bufs[x].refcnt + Bit(RefersTo(s'.users[p], x)) + Bit(s'.pinned[x])
    ensures CountsOk(s')
  {
    forall y | 0 <= y < NBUF
      ensures s'.bufs[y].refcnt == Tally(s'.users, RefersTo, y) + if s'.pinned[y] then 1 else 0
    {
      TallyWith(s.users, RefersTo, y, p, s'.users[p]);
    }
  }

  lemma HitKeeps(s: State, p: nat, x: nat, t: nat, s': State)
    requires Inv(s) && p < |s.users| && Searches(s, p, Hit(x, t), s')
    ensures Inv(s')
  {
    hide Hash, IndexOk, UniqueOk, CountsOk, BuffersOk, Owned, Tally;
    assert UserOk(s, p);
    BufferAt(s, x);
    var pc, to := s.users[p], s'.users[p];
    SettledUnderLock(s, p, Hash(pc.b), x);
    TallyFew(s.users, RefersTo, x, p);
    OwnersKeep(s.locks, s.users, Owns, p, to);
    OwnersKeep(s.holder, s.users, Has, p, to);
    OwnersKeep(s.mover, s.users, Moves, p, to);
    IndexKept(s, p, s');
    UniqueKept(s, p, s');
    UsersKept(s, p, s');
    CountBefore(s, x);
    CountsChanged(s, p, x, s');
    OtherBuffers(s, x, s');
  }

  lemma BufferAt(s: State, x: nat)
    requires Sized(s) && BuffersOk(s) && x < NBUF
    ensures BufferOk(s, x)
  {}

  lemma CountBefore(s: State, x: nat)
    requires Sized(s) && CountsOk(s) && x < NBUF
    ensures s.bufs[x].refcnt == Tally(s.users, RefersTo, x) + if s.pinned[x] then 1 else 0
  {}

  // ---- Recycling ----

  /** The part of `IndexOk` about one bucket and one buffer. */
  lemma IndexAt(s: State, h: nat, x: int)
    requires Sized(s) && IndexOk(s) && h < NBUCKET
    ensures x in s.buckets[h] <==> 0 <= x < NBUF && Home(s, x) == Some(h)
    ensures Distinct(s.buckets[h])
  {}

  /** The homes of other buffers stay, if only `p` moves on and it moves none but `x`. */
  lemma OtherHomes(s: State, p: nat, x: nat, s': State, y: nat)
    requires OneMoved(s, p, s') && MoversOk(s) && x < NBUF && y < NBUF && y != x && !Moves(s.users[p], y)
    requires s'.mover[y] == s.mover[y] && s'.bufs[y] == s.bufs[y]
    ensures Home(s', y) == Home(s, y)
  {
    OwnerAt(s.mover, s.users, Moves, p, y);
  }

  lemma MoveIndex(s: State, p: nat, x: nat, s': State)
    requires OneMoved(s, p, s') && MoversOk(s) && IndexOk(s) && x < NBUF
    requires forall y :: 0 <= y < NBUF && y != x ==>
      s'.mover[y] == s.mover[y] && s'.bufs[y] == s.bufs[y] && !Moves(s.users[p], y)
    requires forall h :: 0 <= h < NBUCKET ==>
      Distinct(s'.buckets[h]) && (x in s'.buckets[h] <==> Home(s', x) == Some(h))
    requires forall h, y {:trigger y in s'.buckets[h]} :: 0 <= h < NBUCKET && y != x ==>
      (y in s'.buckets[h] <==> y in s.buckets[h])
    ensures IndexOk(s')
  {
    forall h, y {:trigger y in s'.buckets[h]} | 0 <= h < NBUCKET
      ensures y in s'.buckets[h] <==> 0 <= y < NBUF && Home(s', y) == Some(h)
    {
      IndexAt(s, h, y);
      if 0 <= y < NBUF && y != x {
        OtherHomes(s, p, x, s', y);
      }
    }
  }

  /** With one settled buffer fewer, no block has gained one. */
  lemma FewerSettled(s: State, p: nat, x: nat, s': State)
    requires OneMoved(s, p, s') && UniqueOk(s) && x < NBUF && s'.mover[x].Some? && s'.bufs == s.bufs
    requires forall y :: 0 <= y < NBUF && y != x ==> s'.mover[y] == s.mover[y]
    requires Seeks(s.users[p]) && Seeks(s'.users[p]) && s'.users[p].b == s.users[p].b
    ensures UniqueOk(s')
  {
    forall y, b | 0 <= y < NBUF && Settled(s', y, b)
      ensures Settled(s, y, b)
    {}
  }

  /** The steps that pick an unused buffer, on the user's own bucket or another. */
  lemma PickKeeps(s: State, p: nat, act: Act, s': State)
    requires Inv(s) && p < |s.users| && Recycles(s, p, act, s') && (act.TakeOwn? || act.Steal?)
    ensures Inv(s')
  {
    hide Hash, Nth, IndexOk, UniqueOk, CountsOk, BuffersOk, Owned, UsersOk;
    UserAt(s, p);
    var pc, to, x := s.users[p], s'.users[p], act.victim;
    BufferAt(s, x);
    NthIsAnother(pc.b, pc.n);
    SettledUnderLock(s, p, Nth(pc.b, pc.n), x);
    if act.TakeOwn? {
      OwnersKeep(s.locks, s.users, Owns, p, to);
    } else {
      OwnersFree(s.locks, s.users, Owns, p, to, Nth(pc.b, pc.n));
    }
    OwnersKeep(s.holder, s.users, Has, p, to);
    OwnersTake(s.mover, s.users, Moves, p, to, x);
    forall h | 0 <= h < NBUCKET { IndexAt(s, h, x); }
    MoveIndex(s, p, x, s');
    FewerSettled(s, p, x, s');
    OtherUsers(s, p, x, s');
    CountsKept(s, p, s');
    OtherBuffers(s, x, s');
  }

  lemma UserAt(s: State, p: nat)
    requires Sized(s) && UsersOk(s) && p < |s.users|
    ensures UserOk(s, p)
  {}

  lemma RelinkKeeps(s: State, p: nat, s': State)
    requires Inv(s) && p < |s.users| && Recycles(s, p, Relink, s')
    ensures Inv(s')
  {
    hide Hash, IndexOk, UniqueOk, CountsOk, BuffersOk, Owned, UsersOk, Distinct;
    UserAt(s, p);
    var pc, to := s.users[p], s'.users[p];
    var x := pc.x;
    OwnerAt(s.mover, s.users, Moves, p, x);
    OwnersKeep(s.locks, s.users, Owns, p, to);
    OwnersKeep(s.holder, s.users, Has, p, to);
    OwnersKeep(s.mover, s.users, Moves, p, to);
    forall h | 0 <= h < NBUCKET { IndexAt(s, h, x); }
    PushKeepsDistinct(s.buckets[Hash(pc.b)], x);
    MoveIndex(s, p, x, s');
    FewerSettled(s, p, x, s');
    OtherUsers(s, p, x, s');
    CountsKept(s, p, s');
    BuffersSame(s, s');
  }

  /** Nobody else seeks a block while its bucket's lock is held. */
  lemma SeeksAlone(s: State, p: nat, q: nat)
    requires Sized(s) && LocksOk(s) && p < |s.users| && q < |s.users| && Seeks(s.users[p]) && Seeks(s.users[q])
    requires s.users[q].b == s.users[p].b
    ensures p == q
  {
    OwnerAt(s.locks, s.users, Owns, p, Hash(s.users[p].b));
    OwnerAt(s.locks, s.users, Owns, q, Hash(s.users[p].b));
  }

  lemma RenumberUnique(s: State, p: nat, x: nat, s': State)
    requires OneMoved(s, p, s') && LocksOk(s) && UniqueOk(s) && x < NBUF && Seeks(s.users[p]) && !Seeks(s'.users[p])
    requires forall y :: 0 <= y < NBUF && y != x ==> s'.bufs[y] == s.bufs[y] && s'.mover[y] == s.mover[y]
    requires Settled(s', x, s.users[p].b)
    ensures UniqueOk(s')
  {
    var b := s.users[p].b;
    forall y, c | 0 <= y < NBUF && y != x && Settled(s', y, c)
      ensures Settled(s, y, c) && c != b
    {
      assert !Settled(s, y, b);
    }
    forall q, y | 0 <= q < |s.users| && 0 <= y < NBUF && Seeks(s'.users[q])
      ensures !Settled(s', y, s'.users[q].b)
    {
      if s.users[q].b == b {
        SeeksAlone(s, p, q);
      } else {
        assert !Settled(s, y, s.users[q].b);
      }
    }
  }

  lemma RenumberKeeps(s: State, p: nat, t: nat, s': State)
    requires Inv(s) && p < |s.users| && Recycles(s, p, Renumber(t), s')
    ensures Inv(s')
  {
    hide Hash, IndexOk, UniqueOk, CountsOk, BuffersOk, Owned, UsersOk, Distinct, Tally;
    UserAt(s, p);
    var pc, to := s.users[p], s'.users[p];
    var x := pc.x;
    OwnerAt(s.mover, s.users, Moves, p, x);
    UnusedIsUnheld(s, x);
    OwnersKeep(s.locks, s.users, Owns, p, to);
    OwnersKeep(s.holder, s.users, Has, p, to);
    OwnersFree(s.mover, s.users, Moves, p, to, x);
    forall h | 0 <= h < NBUCKET { IndexAt(s, h, x); }
    MoveIndex(s, p, x, s');
    RenumberUnique(s, p, x, s');
    OtherUsers(s, p, x, s');
    CountsChanged(s, p, x, s');
    OtherBuffers(s, x, s');
  }

  lemma ReleaseBidKeeps(s: State, p: nat, s': State)
    requires Inv(s) && p < |s.users| && Recycles(s, p, ReleaseBid, s')
    ensures Inv(s')
  {
    hide Hash, IndexOk, UniqueOk, CountsOk, BuffersOk, HoldersOk, MoversOk, Owned, UsersOk;
    UserAt(s, p);
    OwnersFree(s.locks, s.users, Owns, p, s'.users[p], Hash(s.users[p].b));
    MovesOn(s, p, s'.users[p], s'.locks, s');
  }

  // ---- The holder's steps ----

  /** A step on a referenced buffer that leaves its count and the pins alone. */
  lemma HolderStep(s: State, p: nat, x: nat, s': State)
    requires Inv(s) && SameIndex(s, p, s') && x < NBUF && RefersTo(s.users[p], x) && RefersTo(s'.users[p], x)
    requires s'.bufs == s.bufs[x := s'.bufs[x]] && s'.bufs[x].refcnt == s.bufs[x].refcnt && s'.pinned == s.pinned
    requires s.bufs[x].valid ==> s'.bufs[x].valid
    requires s'.locks == s.locks && forall h :: 0 <= h < NBUCKET ==> (Owns(s'.users[p], h) <==> Owns(s.users[p], h))
    requires HoldersOk(s') && UserOk(s', p) && BuffersOk(s')
    ensures Inv(s')
  {
    hide Hash, IndexOk, UniqueOk, CountsOk, BuffersOk, HoldersOk, Owned, UsersOk;
    OwnersKeep(s.locks, s.users, Owns, p, s'.users[p]);
    OwnersKeep(s.mover, s.users, Moves, p, s'.users[p]);
    IndexKept(s, p, s');
    UniqueKept(s, p, s');
    UsersKept(s, p, s');
    CountsKept(s, p, s');
  }

  lemma AcquireKeeps(s: State, p: nat, s': State)
    requires Inv(s) && p < |s.users| && Uses(s, p, AcquireSleep, s')
    ensures Inv(s')
  {
    hide Hash, IndexOk, UniqueOk, CountsOk, BuffersOk, Owned, UsersOk, MoversOk;
    UserAt(s, p);
    var x := s.users[p].x;
    BufferAt(s, x);
    OwnersTake(s.holder, s.users, Has, p, s'.users[p], x);
    OtherBuffers(s, x, s');
    HolderStep(s, p, x, s');
  }

  lemma FillKeeps(s: State, p: nat, act: Act, s': State)
    requires Inv(s) && p < |s.users| && Uses(s, p, act, s') && (act.Fill? || act.Modify?)
    ensures Inv(s')
  {
    hide Hash, IndexOk, UniqueOk, CountsOk, BuffersOk, Owned, UsersOk, MoversOk;
    UserAt(s, p);
    var x := s.users[p].x;
    BufferAt(s, x);
    OwnerAt(s.holder, s.users, Has, p, x);
    OwnersKeep(s.holder, s.users, Has, p, s'.users[p]);
    OtherBuffers(s, x, s');
    HolderStep(s, p, x, s');
  }

  lemma WriteKeeps(s: State, p: nat, s': State)
    requires Inv(s) && p < |s.users| && Uses(s, p, Write, s')
    ensures Inv(s')
  {
    hide Hash, IndexOk, CountsOk, Owned, UsersOk, MoversOk, LocksOk;
    UserAt(s, p);
    var b, x := s.users[p].b, s.users[p].x;
    OwnerAt(s.holder, s.users, Has, p, x);
    forall y | 0 <= y < NBUF
      ensures BufferOk(s', y)
    {
      assert BufferOk(s, y);
      assert Settled(s, y, b) ==> y == x;
    }
    assert s'.users == s.users;
    SameUsers(s, s');
  }

  lemma SameUsers(s: State, s': State)
    requires Inv(s) && Sized(s') && s' == s.(disk := s'.disk) && |s'.disk| == |s.disk|
    ensures LocksOk(s') && HoldersOk(s') && MoversOk(s') && IndexOk(s') && UniqueOk(s') && UsersOk(s') && CountsOk(s')
  {
    hide Hash, Owned;
    assert forall x, b :: 0 <= x < NBUF ==> (Settled(s', x, b) <==> Settled(s, x, b));
    forall x | 0 <= x < NBUF
      ensures Home(s', x) == Home(s, x)
    {}
    forall q | 0 <= q < |s.users|
      ensures UserOk(s', q)
    {
      UserAt(s, q);
    }
  }

  // ---- Pins and releases ----

  lemma CallKeeps(s: State, p: nat, act: Act, s': State)
    requires Inv(s) && p < |s.users| && Counts(s, p, act, s') && (act.CallPin? || act.LockPin? || act.LockDrop?)
    ensures Inv(s')
  {
    hide Hash, IndexOk, UniqueOk, CountsOk, BuffersOk, HoldersOk, MoversOk, Owned, UsersOk;
    UserAt(s, p);
    var pc, to := s.users[p], s'.users[p];
    if act.CallPin? {
      OwnersKeep(s.locks, s.users, Owns, p, to);
    } else {
      OwnersTake(s.locks, s.users, Owns, p, to, Hash(pc.b));
    }
    MovesOn(s, p, to, s'.locks, s');
  }

  lemma PinKeeps(s: State, p: nat, s': State)
    requires Inv(s) && p < |s.users| && Counts(s, p, Pin, s')
    ensures Inv(s')
  {
    hide Hash, IndexOk, UniqueOk, CountsOk, BuffersOk, Owned, UsersOk, Tally;
    UserAt(s, p);
    var pc, to := s.users[p], s'.users[p];
    var x := pc.x;
    BufferAt(s, x);
    CountBefore(s, x);
    TallyBound(s.users, RefersTo, x);
    OwnerAt(s.holder, s.users, Has, p, x);
    OwnersFree(s.locks, s.users, Owns, p, to, Hash(pc.b));
    OwnersKeep(s.holder, s.users, Has, p, to);
    OwnersKeep(s.mover, s.users, Moves, p, to);
    IndexKept(s, p, s');
    UniqueKept(s, p, s');
    UsersKept(s, p, s');
    CountsChanged(s, p, x, s');
    OtherBuffers(s, x, s');
  }

  lemma LetGoKeeps(s: State, p: nat, s': State)
    requires Inv(s) && p < |s.users| && Counts(s, p, LetGo, s')
    ensures Inv(s')
  {
    hide Hash, IndexOk, UniqueOk, CountsOk, BuffersOk, Owned, UsersOk, MoversOk;
    UserAt(s, p);
    var x := s.users[p].x;
    BufferAt(s, x);
    OwnersFree(s.holder, s.users, Has, p, s'.users[p], x);
    OtherBuffers(s, x, s');
    HolderStep(s, p, x, s');
  }

  lemma DropKeeps(s: State, p: nat, t: nat, s': State)
    requires Inv(s) && p < |s.users| && Counts(s, p, Drop(t), s')
    ensures Inv(s')
  {
    hide Hash, IndexOk, UniqueOk, CountsOk, BuffersOk, Owned, UsersOk, Tally;
    UserAt(s, p);
    var pc, to := s.users[p], s'.users[p];
    var x := pc.x;
    BufferAt(s, x);
    CountBefore(s, x);
    TallySome(s.users, RefersTo, x, p);
    OwnersFree(s.locks, s.users, Owns, p, to, Hash(pc.b));
    OwnersKeep(s.holder, s.users, Has, p, to);
    OwnersKeep(s.mover, s.users, Moves, p, to);
    IndexKept(s, p, s');
    UniqueKept(s, p, s');
    UsersKept(s, p, s');
    CountsChanged(s, p, x, s');
    OtherBuffers(s, x, s');
  }

  // ---- Runs ----

  lemma NextKeeps(s: State, e: Step, s': State)
    requires Inv(s) && Next(s, e, s')
    ensures Inv(s')
  {
    hide Inv, Sized, Searches, Recycles, Uses, Counts;
    if Searches(s, e.p, e.act, s') {
      if e.act.Hit? {
        HitKeeps(s, e.p, e.act.hit, e.act.now, s');
      } else {
        SearchKeeps(s, e.p, e.act, s');
      }
    } else if Recycles(s, e.p, e.act, s') {
      RecycleKeeps(s, e.p, e.act, s');
    } else if Uses(s, e.p, e.act, s') {
      UseKeeps(s, e.p, e.act, s');
    } else {
      CountKeeps(s, e.p, e.act, s');
    }
  }

  lemma RecycleKeeps(s: State, p: nat, act: Act, s': State)
    requires Inv(s) && p < |s.users| && Recycles(s, p, act, s')
    ensures Inv(s')
  {
    hide Inv;
    match act
    case TakeOwn(_) => PickKeeps(s, p, act, s');
    case Steal(_) => PickKeeps(s, p, act, s');
    case Relink => RelinkKeeps(s, p, s');
    case Renumber(t) => RenumberKeeps(s, p, t, s');
    case ReleaseBid => ReleaseBidKeeps(s, p, s');
  }

  lemma UseKeeps(s: State, p: nat, act: Act, s': State)
    requires Inv(s) && p < |s.users| && Uses(s, p, act, s')
    ensures Inv(s')
  {
    hide Inv;
    match act
    case AcquireSleep => AcquireKeeps(s, p, s');
    case Fill => FillKeeps(s, p, act, s');
    case Modify(_) => FillKeeps(s, p, act, s');
    case Write => WriteKeeps(s, p, s');
  }

  lemma CountKeeps(s: State, p: nat, act: Act, s': State)
    requires Inv(s) && p < |s.users| && Counts(s, p, act, s')
    ensures Inv(s')
  {
    hide Inv;
    match act
    case CallPin(_) => CallKeeps(s, p, act, s');
    case LockPin => CallKeeps(s, p, act, s');
    case Pin => PinKeeps(s, p, s');
    case LetGo => LetGoKeeps(s, p, s');
    case LockDrop => CallKeeps(s, p, act, s');
    case Drop(t) => DropKeeps(s, p, t, s');
  }

  lemma InitInv(s: State)
    requires Init(s)
    ensures Inv(s)
  {
    forall x | 0 <= x < NBUF
      ensures s.bufs[x].refcnt == Tally(s.users, RefersTo, x)
    {
      TallyNone(s.users, RefersTo, x);
    }
  }

  /** Everything above holds in every state of every run. */
  lemma {:induction false} RunInv(states: seq<State>, steps: seq<Step>, i: nat)
    requires Run(states, steps) && i < |states|
    ensures Inv(states[i])
  {
    hide Inv, Init, Next;
    if i == 0 {
      InitInv(states[0]);
    } else {
      RunInv(states, steps, i - 1);
      NextKeeps(states[i - 1], steps[i - 1], states[i]);
    }
  }

  // ---- What that means for the index, the locks and the counts ----

  /** A bucket whose lock is free lists, once each, exactly the buffers that stand for its blocks. */
  lemma FreeBucketExact(s: State, h: nat)
    requires Inv(s) && h < NBUCKET && s.locks[h] == None
    ensures Distinct(s.buckets[h])
    ensures forall x :: x in s.buckets[h] <==> 0 <= x < NBUF && s.mover[x] == None && Hash(s.bufs[x].blockno) == h
  {
    hide Hash, Owned, UniqueOk, CountsOk, BuffersOk, UsersOk;
    forall x
      ensures x in s.buckets[h] <==> 0 <= x < NBUF && s.mover[x] == None && Hash(s.bufs[x].blockno) == h
    {
      IndexAt(s, h, x);
      if 0 <= x < NBUF && s.mover[x].Some? {
        MoverLocks(s, x);
      }
    }
  }

  /** A buffer on the move belongs to one user, who holds the lock of the bucket it is going to. */
  lemma MoverLocks(s: State, x: nat)
    requires Inv(s) && x < NBUF && s.mover[x].Some?
    ensures s.mover[x].value < |s.users| && Moves(s.users[s.mover[x].value], x)
    ensures s.locks[Hash(s.users[s.mover[x].value].b)] == s.mover[x]
  {
    hide Hash, IndexOk, UniqueOk, CountsOk, BuffersOk;
    var p := s.mover[x].value;
    assert p < |s.users|;
    OwnerAt(s.mover, s.users, Moves, p, x);
    OwnerAt(s.locks, s.users, Owns, p, Hash(s.users[p].b));
  }

  /** With no bucket lock held, the index is exact and no block has two buffers, as between sequential calls. */
  lemma IndexExact(states: seq<State>, steps: seq<Step>, i: nat)
    requires Run(states, steps) && i < |states| && forall h :: 0 <= h < |states[i].locks| ==> states[i].locks[h] == None
    ensures Indexed(states[i].bufs, states[i].buckets) && Unique(states[i].bufs)
  {
    hide Init, Next, Hash, Owned, IndexOk, UniqueOk, CountsOk, BuffersOk, UsersOk;
    RunInv(states, steps, i);
    var s := states[i];
    forall x | 0 <= x < NBUF
      ensures s.mover[x] == None
    {
      if s.mover[x].Some? {
        MoverLocks(s, x);
      }
    }
    forall h | 0 <= h < NBUCKET { FreeBucketExact(s, h); }
    SettledUnique(s);
  }

  lemma SettledUnique(s: State)
    requires Sized(s) && UniqueOk(s) && forall x :: 0 <= x < NBUF ==> s.mover[x] == None
    ensures Unique(s.bufs)
  {
    forall x, y | 0 <= x < y < NBUF && s.bufs[x].dev == ROOTDEV && s.bufs[y].dev == ROOTDEV
      ensures s.bufs[x].blockno != s.bufs[y].blockno
    {
      var b := s.bufs[x].blockno;
      assert Settled(s, x, b);
      assert Settled(s, y, b) ==> x == y;
    }
  }

  /**
   Every buffer, at every moment, is on exactly one bucket, or on none while one user,
   holding the lock of the bucket it is going to, has it in flight.
   */
  lemma OneBucketOrInFlight(states: seq<State>, steps: seq<Step>, i: nat, x: nat)
    requires Run(states, steps) && i < |states| && x < NBUF
    ensures Sized(states[i])
    ensures forall h, k ::
      0 <= h < NBUCKET && 0 <= k < NBUCKET && x in states[i].buckets[h] && x in states[i].buckets[k] ==> h == k
    ensures (exists h :: 0 <= h < NBUCKET && x in states[i].buckets[h]) <==>
            !(exists p :: 0 <= p < |states[i].users| && InFlight(states[i], p, x))
    ensures forall p, q :: 0 <= p < q < |states[i].users| ==> !InFlight(states[i], p, x) || !InFlight(states[i], q, x)
  {
    hide Init, Next, Hash, Owned, IndexOk, UniqueOk, CountsOk, BuffersOk, UsersOk;
    RunInv(states, steps, i);
    var s := states[i];
    forall h | 0 <= h < NBUCKET { IndexAt(s, h, x); }
    forall p | 0 <= p < |s.users| { OwnerAt(s.mover, s.users, Moves, p, x); }
    if s.mover[x].Some? {
      MoverLocks(s, x);
      assert s.users[s.mover[x].value].Flying? ==> InFlight(s, s.mover[x].value, x);
    }
    if Home(s, x).Some? {
      assert x in s.buckets[Home(s, x).value];
    }
  }

  ghost predicate InFlight(s: State, p: nat, x: nat)
    requires p < |s.users| && |s.locks| == NBUCKET
  {
    s.users[p].Flying? && s.users[p].x == x && s.locks[Hash(s.users[p].b)] == Some(p)
  }

  /** refcnt is the number of uses between bget and brelse, plus the log's pin, and does not wrap. */
  lemma CountIsUses(states: seq<State>, steps: seq<Step>, i: nat, x: nat)
    requires Run(states, steps) && i < |states| && x < NBUF
    ensures Sized(states[i])
    ensures states[i].bufs[x].refcnt == Tally(states[i].users, RefersTo, x) + if states[i].pinned[x] then 1 else 0
    ensures states[i].bufs[x].refcnt <= |states[i].users| + 1
  {
    hide Init, Next, Owned, IndexOk, UniqueOk, CountsOk, BuffersOk, UsersOk;
    RunInv(states, steps, i);
    CountBefore(states[i], x);
    TallyBound(states[i].users, RefersTo, x);
  }

  /** At most one user has a buffer's sleep lock. */
  lemma MutualExclusion(states: seq<State>, steps: seq<Step>, i: nat, p: nat, q: nat, x: nat)
    requires Run(states, steps) && i < |states| && x < NBUF && p < |states[i].users| && q < |states[i].users|
    requires Has(states[i].users[p], x) && Has(states[i].users[q], x)
    ensures p == q
  {
    hide Init, Next, Owned, IndexOk, UniqueOk, CountsOk, BuffersOk, UsersOk;
    RunInv(states, steps, i);
    OwnerAt(states[i].holder, states[i].users, Has, p, x);
    OwnerAt(states[i].holder, states[i].users, Has, q, x);
  }

  /** A buffer that someone uses, waits for or has pinned stands for the same block after any step. */
  lemma NeverRenumbered(states: seq<State>, steps: seq<Step>, i: nat, q: nat, x: nat)
    requires Run(states, steps) && i < |steps| && x < NBUF && q < |states[i].users|
    requires Sized(states[i]) && (RefersTo(states[i].users[q], x) || states[i].pinned[x])
    ensures Sized(states[i + 1]) && states[i + 1].mover[x] == states[i].mover[x] == None
    ensures states[i + 1].bufs[x].dev == states[i].bufs[x].dev
    ensures states[i + 1].bufs[x].blockno == states[i].bufs[x].blockno
  {
    hide Init, Owned, IndexOk, UniqueOk, BuffersOk, CountsOk, UsersOk, Hash, Nth;
    RunInv(states, steps, i);
    RunInv(states, steps, i + 1);
    var s, p, act := states[i], steps[i].p, steps[i].act;
    assert s.bufs[x].refcnt != 0 by {
      if s.bufs[x].refcnt == 0 {
        UnusedHasNoUser(s, x, q);
      }
    }
    OwnersStay(s, steps[i], states[i + 1], x);
  }

  lemma OwnersStay(s: State, e: Step, s': State, x: nat)
    requires Inv(s) && Next(s, e, s') && x < NBUF && s.bufs[x].refcnt != 0
    ensures Sized(s') && s'.mover[x] == s.mover[x] == None
    ensures s'.bufs[x].dev == s.bufs[x].dev && s'.bufs[x].blockno == s.bufs[x].blockno
  {
    hide IndexOk, UniqueOk, BuffersOk, CountsOk, UsersOk, Searches, Recycles, Uses, Counts, Owned;
    if Searches(s, e.p, e.act, s') {
      SearchQuiet(s, e.p, e.act, s');
    } else if Recycles(s, e.p, e.act, s') {
      RecycleStays(s, e.p, e.act, s', x);
    } else if Uses(s, e.p, e.act, s') {
      UseQuiet(s, e.p, e.act, s');
    } else {
      CountQuiet(s, e.p, e.act, s');
    }
  }

  lemma RecycleStays(s: State, p: nat, act: Act, s': State, x: nat)
    requires Sized(s) && MoversOk(s) && p < |s.users| && Recycles(s, p, act, s') && x < NBUF && s.bufs[x].refcnt != 0
    ensures Sized(s') && s'.mover[x] == s.mover[x]
    ensures s'.bufs[x].dev == s.bufs[x].dev && s'.bufs[x].blockno == s.bufs[x].blockno
  {
    hide Hash, Nth, Without, Distinct;
    OwnerAt(s.mover, s.users, Moves, p, x);
  }

  /** What is cached, for which block, is the same. */
  ghost predicate SameCached(s: State, s': State) {
    && Sized(s) && Sized(s') && s'.mover == s.mover && s'.disk == s.disk
    && forall x :: 0 <= x < NBUF ==>
         && s'.bufs[x].dev == s.bufs[x].dev && s'.bufs[x].blockno == s.bufs[x].blockno
         && s'.bufs[x].valid == s.bufs[x].valid && s'.bufs[x].data == s.bufs[x].data
  }

  lemma SearchQuiet(s: State, p: nat, act: Act, s': State)
    requires Sized(s) && p < |s.users| && Searches(s, p, act, s')
    ensures SameCached(s, s')
  {
    hide Hash, Nth;
  }

  lemma CountQuiet(s: State, p: nat, act: Act, s': State)
    requires Sized(s) && p < |s.users| && Counts(s, p, act, s')
    ensures SameCached(s, s')
  {
    hide Hash;
  }

  lemma UseQuiet(s: State, p: nat, act: Act, s': State)
    requires Sized(s) && p < |s.users| && Uses(s, p, act, s')
    ensures Sized(s') && s'.mover == s.mover && (act.AcquireSleep? ==> SameCached(s, s'))
    ensures forall x :: 0 <= x < NBUF ==> s'.bufs[x].dev == s.bufs[x].dev && s'.bufs[x].blockno == s.bufs[x].blockno
  {}

  // ---- The cache is transparent ----

  /** Buffer `x` has the contents of block `b`. */
  predicate Shows(s: State, x: nat, b: nat)
    requires x < |s.mover| && x < |s.bufs|
  {
    Settled(s, x, b) && s.bufs[x].valid
  }

  /** Block `b` reads as `v`: from its buffer, or from the disk if it has none that is filled. */
  ghost predicate ReadsAs(s: State, b: nat, v: Block)
    requires Sized(s) && b < |s.disk|
  {
    && (forall x :: 0 <= x < NBUF && Shows(s, x, b) ==> s.bufs[x].data == v)
    && ((forall x :: 0 <= x < NBUF ==> !Shows(s, x, b)) ==> s.disk[b] == v)
  }

  ghost predicate Matches(s: State, a: Disk) {
    Sized(s) && |a| == |s.disk| && forall b :: 0 <= b < |a| ==> ReadsAs(s, b, a[b])
  }

  /** A plain array of blocks, where only a holder's change of its block counts. */
  function Effect(s: State, e: Step, a: Disk): Disk {
    if e.act.Modify? && e.p < |s.users| && s.users[e.p].Holding? && s.users[e.p].b < |a|
    then a[s.users[e.p].b := e.act.data] else a
  }

  ghost function Flat(states: seq<State>, steps: seq<Step>, i: nat): Disk
    requires |states| == |steps| + 1 && i < |states|
  {
    if i == 0 then states[0].disk else Effect(states[i - 1], steps[i - 1], Flat(states, steps, i - 1))
  }

  lemma QuietMatches(s: State, s': State, a: Disk)
    requires SameCached(s, s') && Matches(s, a)
    ensures Matches(s', a)
  {
    assert forall x, b :: 0 <= x < NBUF ==> (Shows(s', x, b) <==> Shows(s, x, b));
    forall b | 0 <= b < |a|
      ensures ReadsAs(s', b, a[b])
    {
      assert ReadsAs(s, b, a[b]);
    }
  }

  /** Recycling an unused buffer loses nothing: its contents are on disk. */
  lemma PickMatches(s: State, x: nat, s': State, a: Disk)
    requires Sized(s) && HoldersOk(s) && CountsOk(s) && UniqueOk(s) && BuffersOk(s) && Matches(s, a)
    requires x < NBUF && s.bufs[x].refcnt == 0 && s.mover[x] == None
    requires Sized(s') && s'.bufs == s.bufs && s'.disk == s.disk && s'.mover == s.mover[x := s'.mover[x]]
    requires s'.mover[x].Some?
    ensures Matches(s', a)
  {
    UnusedIsUnheld(s, x);
    BufferAt(s, x);
    forall b | 0 <= b < |a|
      ensures ReadsAs(s', b, a[b])
    {
      assert ReadsAs(s, b, a[b]);
      assert forall y :: 0 <= y < NBUF && y != x ==> (Shows(s', y, b) <==> Shows(s, y, b));
      if Settled(s, x, b) {
        assert forall y :: 0 <= y < NBUF && Settled(s, y, b) ==> y == x;
      }
    }
  }

  lemma RenumberMatches(s: State, x: nat, s': State, a: Disk)
    requires Matches(s, a) && Sized(s') && x < NBUF && s.mover[x].Some? && !s'.bufs[x].valid
    requires s'.disk == s.disk && forall y :: 0 <= y < NBUF && y != x ==>
      s'.bufs[y] == s.bufs[y] && s'.mover[y] == s.mover[y]
    ensures Matches(s', a)
  {
    assert forall y, b :: 0 <= y < NBUF ==> (Shows(s', y, b) <==> Shows(s, y, b));
    forall b | 0 <= b < |a|
      ensures ReadsAs(s', b, a[b])
    {
      assert ReadsAs(s, b, a[b]);
    }
  }

  /** The one buffer of block `b` gets new contents `v`: read from disk, or changed by its holder. */
  lemma ChangeMatches(s: State, x: nat, b: nat, v: Block, s': State, a: Disk)
    requires Matches(s, a) && UniqueOk(s) && Sized(s') && x < NBUF && Settled(s, x, b) && b < |a|
    requires s'.disk == s.disk && s'.mover == s.mover && s'.bufs == s.bufs[x := s.bufs[x].(valid := true, data := v)]
    ensures Matches(s', a[b := v])
  {
    var a' := a[b := v];
    forall c | 0 <= c < |a|
      ensures ReadsAs(s', c, a'[c])
    {
      assert ReadsAs(s, c, a[c]);
      assert forall y :: 0 <= y < NBUF && y != x ==> (Shows(s', y, c) <==> Shows(s, y, c));
      assert Settled(s, x, c) <==> c == b;
      assert Shows(s', x, b);
      if c == b {
        assert forall y :: 0 <= y < NBUF && Settled(s, y, b) ==> y == x;
      }
    }
  }

  lemma WriteMatches(s: State, x: nat, b: nat, s': State, a: Disk)
    requires Matches(s, a) && Sized(s') && x < NBUF && Shows(s, x, b) && b < |a|
    requires s' == s.(disk := s.disk[b := s.bufs[x].data])
    ensures Matches(s', a)
  {
    assert forall y, c :: 0 <= y < NBUF ==> (Shows(s', y, c) <==> Shows(s, y, c));
    forall c | 0 <= c < |a|
      ensures ReadsAs(s', c, a[c])
    {
      assert ReadsAs(s, c, a[c]);
    }
  }

  lemma RecycleMatches(s: State, e: Step, s': State, a: Disk)
    requires Inv(s) && Matches(s, a) && e.p < |s.users| && Recycles(s, e.p, e.act, s')
    ensures Matches(s', a)
  {
    hide Hash, Nth, IndexOk, UniqueOk, CountsOk, BuffersOk, Owned, UsersOk, Matches, Without;
    UserAt(s, e.p);
    var pc := s.users[e.p];
    match e.act {
      case TakeOwn(x) =>
        NthIsAnother(pc.b, pc.n);
        SettledUnderLock(s, e.p, Nth(pc.b, pc.n), x);
        PickMatches(s, x, s', a);
      case Steal(x) =>
        SettledUnderLock(s, e.p, Nth(pc.b, pc.n), x);
        PickMatches(s, x, s', a);
      case Relink => QuietMatches(s, s', a);
      case Renumber(t) =>
        OwnerAt(s.mover, s.users, Moves, e.p, pc.x);
        RenumberMatches(s, pc.x, s', a);
      case ReleaseBid => QuietMatches(s, s', a);
    }
  }

  lemma UseMatches(s: State, e: Step, s': State, a: Disk)
    requires Inv(s) && Matches(s, a) && e.p < |s.users| && Uses(s, e.p, e.act, s')
    ensures Matches(s', Effect(s, e, a))
  {
    hide Hash, IndexOk, UniqueOk, CountsOk, BuffersOk, Owned, UsersOk, LocksOk, HoldersOk, MoversOk;
    UserAt(s, e.p);
    var pc := s.users[e.p];
    match e.act {
      case AcquireSleep => QuietMatches(s, s', a);
      case Fill =>
        if s.bufs[pc.x].valid {
          QuietMatches(s, s', a);
        } else {
          NotShown(s, pc.x, pc.b, a);
          ChangeMatches(s, pc.x, pc.b, s.disk[pc.b], s', a);
          assert a[pc.b := s.disk[pc.b]] == a;
        }
      case Modify(data) => ChangeMatches(s, pc.x, pc.b, data, s', a);
      case Write => WriteMatches(s, pc.x, pc.b, s', a);
    }
  }

  lemma NotShown(s: State, x: nat, b: nat, a: Disk)
    requires Matches(s, a) && UniqueOk(s) && x < NBUF && Settled(s, x, b) && !s.bufs[x].valid && b < |a|
    ensures s.disk[b] == a[b]
  {
    assert ReadsAs(s, b, a[b]);
    assert forall y :: 0 <= y < NBUF && Settled(s, y, b) ==> y == x;
  }

  lemma NextMatches(s: State, e: Step, s': State, a: Disk)
    requires Inv(s) && Matches(s, a) && Next(s, e, s')
    ensures Matches(s', Effect(s, e, a))
  {
    hide Inv, Matches, Searches, Recycles, Uses, Counts;
    if Searches(s, e.p, e.act, s') {
      SearchQuiet(s, e.p, e.act, s');
      QuietMatches(s, s', a);
      OnlyUsesModify(s, e, s');
    } else if Recycles(s, e.p, e.act, s') {
      RecycleMatches(s, e, s', a);
      OnlyUsesModify(s, e, s');
    } else if Uses(s, e.p, e.act, s') {
      UseMatches(s, e, s', a);
    } else {
      CountQuiet(s, e.p, e.act, s');
      QuietMatches(s, s', a);
      OnlyUsesModify(s, e, s');
    }
  }

  lemma OnlyUsesModify(s: State, e: Step, s': State)
    requires Sized(s) && e.p < |s.users|
    requires Searches(s, e.p, e.act, s') || Recycles(s, e.p, e.act, s') || Counts(s, e.p, e.act, s')
    ensures !e.act.Modify?
  {}

  /**
   In every state of every run, every block reads as in a plain array of blocks that
   holders write one at a time: no recycling, filling, write-back or interleaving shows.
   */
  lemma {:induction false} Transparent(states: seq<State>, steps: seq<Step>, i: nat)
    requires Run(states, steps) && i < |states|
    ensures Matches(states[i], Flat(states, steps, i))
  {
    hide Inv, Next, ReadsAs, Effect;
    if i == 0 {
      FirstMatches(states[0]);
    } else {
      Transparent(states, steps, i - 1);
      RunInv(states, steps, i - 1);
      NextMatches(states[i - 1], steps[i - 1], states[i], Flat(states, steps, i - 1));
    }
  }

  lemma FirstMatches(s: State)
    requires Init(s)
    ensures Matches(s, s.disk)
  {
    forall b | 0 <= b < |s.disk|
      ensures ReadsAs(s, b, s.disk[b])
    {}
  }

  /** A holder has in its buffer what was last written to the block, by anyone. */
  lemma HolderSeesLast(states: seq<State>, steps: seq<Step>, i: nat, p: nat)
    requires Run(states, steps) && i < |states| && p < |states[i].users| && states[i].users[p].Holding?
    ensures var b, x := states[i].users[p].b, states[i].users[p].x;
            && b < |Flat(states, steps, i)| && x < |states[i].bufs|
            && states[i].bufs[x].data == Flat(states, steps, i)[b]
  {
    hide Init, Next, Owned, IndexOk, UniqueOk, CountsOk, BuffersOk, UsersOk, Flat;
    RunInv(states, steps, i);
    Transparent(states, steps, i);
    var s := states[i];
    UserAt(s, p);
    assert ReadsAs(s, s.users[p].b, Flat(states, steps, i)[s.users[p].b]);
    assert Shows(s, s.users[p].x, s.users[p].b);
  }

  /** A block that no one holds and the log has not pinned is on disk as it was last written. */
  lemma UnusedIsOnDisk(states: seq<State>, steps: seq<Step>, i: nat, b: nat)
    requires Run(states, steps) && i < |states| && b < |states[i].disk| && Sized(states[i])
    requires forall x :: 0 <= x < NBUF && Settled(states[i], x, b) ==>
      states[i].holder[x] == None && !states[i].pinned[x]
    ensures b < |Flat(states, steps, i)| && states[i].disk[b] == Flat(states, steps, i)[b]
  {
    hide Init, Next, Owned, IndexOk, UniqueOk, CountsOk, UsersOk, Flat;
    RunInv(states, steps, i);
    Transparent(states, steps, i);
    var s := states[i];
    assert ReadsAs(s, b, Flat(states, steps, i)[b]);
    forall x | 0 <= x < NBUF && Shows(s, x, b)
      ensures s.bufs[x].data == s.disk[b]
    {
      assert BufferOk(s, x);
    }
  }

  // ---- A run that steals ----

  /** What binit leaves is such a state. */
  lemma Boot(d: Disk, n: nat, buf: Buf) returns (s: State)
    requires buf.dev != ROOTDEV && buf.blockno == 0 && buf.refcnt == 0 && !buf.locked && n < UINT_LIMIT - 1
    ensures Init(s) && s.disk == d && |s.users| == n
  {
    var all: seq<nat> := seq(NBUF, i requires 0 <= i < NBUF => NBUF - 1 - i);
    var none: seq<nat> := [];
    s := State(seq(NBUF, _ => buf), seq(NBUCKET, h => if h == 0 then all else none), seq(NBUCKET, _ => None),
               seq(NBUF, _ => None), seq(NBUF, _ => false), seq(NBUF, _ => None), d, seq(n, _ => Idle));
    forall h, x {:trigger x in s.buckets[h]} | 0 <= h < NBUCKET
      ensures x in s.buckets[h] <==> h == 0 && 0 <= x < NBUF
    {
      if h == 0 && 0 <= x < NBUF {
        assert all[NBUF - 1 - x] == x;
      }
    }
  }

  lemma OneMore(states: seq<State>, steps: seq<Step>, e: Step, s': State)
    requires Run(states, steps) && Next(states[|steps|], e, s')
    ensures Run(states + [s'], steps + [e])
  {
    hide Init, Next;
    var states', steps' := states + [s'], steps + [e];
    forall i | 0 <= i < |steps'|
      ensures Next(states'[i], steps'[i], states'[i + 1])
    {
      if i < |steps| {
        assert Next(states[i], steps[i], states[i + 1]);
      }
    }
  }

  /** The first read of block 12 after boot does not find it ... */
  lemma MissRun(s: State) returns (states: seq<State>, steps: seq<Step>)
    requires Init(s) && |s.users| > 0 && |s.disk| > 12
    ensures Run(states, steps) && states[0] == s
    ensures states[|steps|] == Goto(s, 0, Missed(12, 0)).(locks := s.locks[12 := Some(0)])
  {
    states, steps := [s], [];
    var s1 := Goto(s, 0, Want(12));
    OneMore(states, steps, Step(0, Enter(12)), s1);
    states, steps := states + [s1], steps + [Step(0, Enter(12))];
    var s2 := Goto(s1, 0, Looking(12)).(locks := s1.locks[12 := Some(0)]);
    OneMore(states, steps, Step(0, LockBid), s2);
    states, steps := states + [s2], steps + [Step(0, LockBid)];
    var s3 := Goto(s2, 0, Missed(12, 0));
    OneMore(states, steps, Step(0, Miss), s3);
    states, steps := states + [s3], steps + [Step(0, Miss)];
    assert s3 == Goto(s, 0, Missed(12, 0)).(locks := s.locks[12 := Some(0)]);
  }

  /** ... and finds its own bucket empty. */
  lemma SearchRun(s: State) returns (states: seq<State>, steps: seq<Step>)
    requires Init(s) && |s.users| > 0 && |s.disk| > 12
    ensures Run(states, steps) && states[0] == s
    ensures states[|steps|] == Goto(s, 0, Scanning(12, 1)).(locks := s.locks[12 := Some(0)][0 := Some(0)])
  {
    states, steps := MissRun(s);
    var s3 := states[|steps|];
    var s4 := Goto(s3, 0, Scanning(12, 0));
    OneMore(states, steps, Step(0, LockNext), s4);
    states, steps := states + [s4], steps + [Step(0, LockNext)];
    var s5 := Goto(s4, 0, Missed(12, 1));
    OneMore(states, steps, Step(0, Pass), s5);
    states, steps := states + [s5], steps + [Step(0, Pass)];
    var s6 := Goto(s5, 0, Scanning(12, 1)).(locks := s5.locks[0 := Some(0)]);
    OneMore(states, steps, Step(0, LockNext), s6);
    states, steps := states + [s6], steps + [Step(0, LockNext)];
    assert s6 == Goto(s, 0, Scanning(12, 1)).(locks := s.locks[12 := Some(0)][0 := Some(0)]);
  }

  /** It takes a buffer from bucket 0, which is in flight for a while. */
  lemma StealRun(s: State, x: nat) returns (states: seq<State>, steps: seq<Step>)
    requires Init(s) && |s.users| > 0 && |s.disk| > 12 && Oldest(s.bufs, s.buckets[0], x)
    ensures Run(states, steps) && states[0] == s
    ensures Sized(states[|steps|]) && |states[|steps|].users| > 0 && InFlight(states[|steps|], 0, x)
    ensures states[|steps|].locks[0] == None && x !in states[|steps|].buckets[0]
  {
    states, steps := SearchRun(s);
    var s6 := states[|steps|];
    var s7 := Goto(s6, 0, Flying(12, x)).(mover := s6.mover[x := Some(0)], locks := s6.locks[0 := None],
                   buckets := s6.buckets[0 := Without(s6.buckets[0], x)]);
    OneMore(states, steps, Step(0, Steal(x)), s7);
    states, steps := states + [s7], steps + [Step(0, Steal(x))];
  }
}
