/**
 The calls of the buffer cache one at a time, as steps of module CacheRuns: from any state in
 which the locks a call needs are free, the steps of one user lead through the call to its end.
 */
module CacheCalls {
  import opened Blocks
  import opened BufferCache
  import opened CacheRuns
  import opened Common

  /** The steps, all of user `p`, lead from the first state to the last. */
  ghost predicate Leads(states: seq<State>, p: nat, acts: seq<Act>) {
    && |states| == |acts| + 1
    && forall i :: 0 <= i < |acts| ==> Next(states[i], Step(p, acts[i]), states[i + 1])
  }

  lemma LeadsOn(states: seq<State>, p: nat, acts: seq<Act>, act: Act, s': State)
    requires Leads(states, p, acts) && Next(states[|acts|], Step(p, act), s')
    ensures Leads(states + [s'], p, acts + [act])
  {
    hide Next;
    forall i | 0 <= i < |acts + [act]|
      ensures Next((states + [s'])[i], Step(p, (acts + [act])[i]), (states + [s'])[i + 1])
    {
      if i < |acts| {
        assert Next(states[i], Step(p, acts[i]), states[i + 1]);
      }
    }
  }

  lemma LeadsThrough(ss: seq<State>, p: nat, acts: seq<Act>, ss': seq<State>, acts': seq<Act>)
    requires Leads(ss, p, acts) && Leads(ss', p, acts') && ss[|acts|] == ss'[0]
    ensures Leads(ss + ss'[1..], p, acts + acts')
  {
    hide Next;
    var all := ss + ss'[1..];
    forall i | 0 <= i < |acts + acts'|
      ensures Next(all[i], Step(p, (acts + acts')[i]), all[i + 1])
    {
      if i < |acts| {
        assert Next(ss[i], Step(p, acts[i]), ss[i + 1]);
      } else {
        assert Next(ss'[i - |acts|], Step(p, acts'[i - |acts|]), ss'[i - |acts| + 1]);
      }
    }
  }

  // ---- bget ----

  /** The user holds the lock of its block's bucket and looks there. */
  lemma Enters(s: State, p: nat, b: nat) returns (ss: seq<State>, t: State)
    requires Sized(s) && p < |s.users| && s.users[p] == Idle && b < |s.disk| && s.locks[Hash(b)] == None
    ensures Leads(ss, p, [Enter(b), LockBid]) && ss[0] == s && ss[2] == t
    ensures t == s.(users := s.users[p := Looking(b)], locks := s.locks[Hash(b) := Some(p)])
  {
    hide Hash;
    var s1 := Goto(s, p, Want(b));
    t := Goto(s1, p, Looking(b)).(locks := s.locks[Hash(b) := Some(p)]);
    assert Searches(s, p, Enter(b), s1);
    assert Searches(s1, p, LockBid, t);
    ss := [s, s1, t];
  }

  /** With its buffer claimed, the user releases the bucket, gets the sleep lock and reads the block if need be. */
  lemma Finishes(s: State, p: nat, b: nat, x: nat) returns (ss: seq<State>, t: State)
    requires Sized(s) && p < |s.users| && s.users[p] == Claimed(b, x) && x < NBUF && b < |s.disk| && s.holder[x] == None
    ensures Leads(ss, p, [ReleaseBid, AcquireSleep, Fill]) && ss[0] == s && ss[3] == t
    ensures
      var data := if s.bufs[x].valid then s.bufs[x].data else s.disk[b];
      t == s.(users := s.users[p := Holding(b, x)], locks := s.locks[Hash(b) := None],
              holder := s.holder[x := Some(p)],
              bufs := s.bufs[x := s.bufs[x].(locked := true, valid := true, data := data)])
  {
    hide Hash;
    var s1 := Goto(s, p, Waiting(b, x)).(locks := s.locks[Hash(b) := None]);
    var s2 := Update(s1, p, Reading(b, x), x, s.bufs[x].(locked := true)).(holder := s.holder[x := Some(p)]);
    var data := if s.bufs[x].valid then s.bufs[x].data else s.disk[b];
    t := Update(s2, p, Holding(b, x), x, s2.bufs[x].(valid := true, data := data));
    assert Recycles(s, p, ReleaseBid, s1);
    assert Uses(s1, p, AcquireSleep, s2);
    assert Uses(s2, p, Fill, t);
    ss := [s, s1, s2, t];
  }

  /** What bread of a cached block that nobody holds leaves. */
  ghost function AfterHit(s: State, p: nat, b: nat, x: nat, now: nat): State
    requires Sized(s) && p < |s.users| && x < NBUF && b < |s.disk|
  {
    var buf := s.bufs[x];
    s.(users := s.users[p := Holding(b, x)], holder := s.holder[x := Some(p)],
       bufs := s.bufs[x := buf.(refcnt := Inc(buf.refcnt), timestamp := now, locked := true, valid := true,
                                data := if buf.valid then buf.data else s.disk[b])])
  }

  lemma HitCompletes(s: State, p: nat, b: nat, x: nat, now: nat) returns (ss: seq<State>, acts: seq<Act>)
    requires Sized(s) && p < |s.users| && s.users[p] == Idle && b < |s.disk| && s.locks[Hash(b)] == None
    requires x < NBUF && x in s.buckets[Hash(b)] && Holds(s.bufs[x], b) && s.holder[x] == None
    ensures Leads(ss, p, acts) && ss[0] == s && ss[|acts|] == AfterHit(s, p, b, x, now)
  {
    hide Hash, Next;
    var t;
    ss, t := Enters(s, p, b);
    acts := [Enter(b), LockBid];
    var u := Update(t, p, Claimed(b, x), x, s.bufs[x].(refcnt := Inc(s.bufs[x].refcnt), timestamp := now));
    Hits(t, p, b, x, now, u);
    LeadsOn(ss, p, acts, Hit(x, now), u);
    ss, acts := ss + [u], acts + [Hit(x, now)];
    var ss', v := Finishes(u, p, b, x);
    LeadsThrough(ss, p, acts, ss', [ReleaseBid, AcquireSleep, Fill]);
    ss, acts := ss + ss'[1..], acts + [ReleaseBid, AcquireSleep, Fill];
    assert v.locks == s.locks && v.users == s.users[p := Holding(b, x)];
    assert v.bufs == AfterHit(s, p, b, x, now).bufs;
  }

  lemma Hits(s: State, p: nat, b: nat, x: nat, now: nat, s': State)
    requires Sized(s) && p < |s.users| && s.users[p] == Looking(b)
    requires x < NBUF && x in s.buckets[Hash(b)] && Holds(s.bufs[x], b)
    requires s' == Update(s, p, Claimed(b, x), x, s.bufs[x].(refcnt := Inc(s.bufs[x].refcnt), timestamp := now))
    ensures Next(s, Step(p, Hit(x, now)), s')
  {
    assert Searches(s, p, Hit(x, now), s');
  }

  /** Bucket `h` has no unused buffer. */
  ghost predicate AllUsed(s: State, h: nat)
    requires Sized(s) && h < NBUCKET
  {
    forall x :: x in s.buckets[h] && x < NBUF ==> s.bufs[x].refcnt != 0
  }

  /** Buckets without an unused buffer are passed one by one. */
  lemma {:induction false} Passes(s: State, p: nat, b: nat, m: nat) returns (ss: seq<State>, acts: seq<Act>)
    requires Sized(s) && p < |s.users| && s.users[p] == Missed(b, 0) && m < NBUCKET
    requires forall n :: 0 <= n < m ==> AllUsed(s, Nth(b, n))
    requires forall n :: 1 <= n < NBUCKET ==> s.locks[Nth(b, n)] == None
    ensures Leads(ss, p, acts) && ss[0] == s && ss[|acts|] == Goto(s, p, Missed(b, m))
  {
    hide Next, Nth, Goto;
    if m == 0 {
      ss, acts := [s], [];
      SameUser(s, p);
    } else {
      ss, acts := Passes(s, p, b, m - 1);
      assert AllUsed(s, Nth(b, m - 1));
      var mid := PassesOne(s, p, b, m - 1);
      LeadsOn(ss, p, acts, LockNext, mid);
      ss, acts := ss + [mid], acts + [LockNext];
      LeadsOn(ss, p, acts, Pass, Goto(s, p, Missed(b, m)));
      ss, acts := ss + [Goto(s, p, Missed(b, m))], acts + [Pass];
    }
  }

  lemma SameUser(s: State, p: nat)
    requires p < |s.users|
    ensures Goto(s, p, s.users[p]) == s
  {
    assert s.users[p := s.users[p]] == s.users;
  }

  lemma PassesOne(s: State, p: nat, b: nat, n: nat) returns (mid: State)
    requires Sized(s) && p < |s.users| && n < NBUCKET && AllUsed(s, Nth(b, n))
    requires n > 0 ==> s.locks[Nth(b, n)] == None
    ensures Next(Goto(s, p, Missed(b, n)), Step(p, LockNext), mid)
    ensures Next(mid, Step(p, Pass), Goto(s, p, Missed(b, n + 1)))
  {
    hide Nth;
    var u := Goto(s, p, Missed(b, n));
    mid := Goto(u, p, Scanning(b, n)).(locks := if n == 0 then s.locks else s.locks[Nth(b, n) := Some(p)]);
    assert Searches(u, p, LockNext, mid);
    var v := Goto(mid, p, Missed(b, n + 1)).(locks := if n == 0 then mid.locks else mid.locks[Nth(b, n) := None]);
    assert v.locks == s.locks && v == Goto(s, p, Missed(b, n + 1));
    assert Searches(mid, p, Pass, v);
  }

  /** The buffer is on the user's bucket and no longer on the one it was on. */
  ghost function Moved(s: State, b: nat, n: nat, x: nat): seq<seq<nat>>
    requires Sized(s)
  {
    if n == 0 then s.buckets
    else
      var buckets := s.buckets[Nth(b, n) := Without(s.buckets[Nth(b, n)], x)];
      buckets[Hash(b) := [x] + buckets[Hash(b)]]
  }

  /** The oldest unused buffer of the first bucket that has one is taken, linked on bid and renumbered. */
  lemma Recycled(s: State, p: nat, b: nat, n: nat, x: nat, now: nat) returns (ss: seq<State>, acts: seq<Act>)
    requires Sized(s) && p < |s.users| && s.users[p] == Missed(b, n) && n < NBUCKET
    requires n > 0 ==> s.locks[Nth(b, n)] == None
    requires x < NBUF && Oldest(s.bufs, s.buckets[Nth(b, n)], x) && s.mover[x] == None
    ensures Leads(ss, p, acts) && ss[0] == s
    ensures ss[|acts|] == s.(users := s.users[p := Claimed(b, x)], buckets := Moved(s, b, n, x),
                             bufs := s.bufs[x := s.bufs[x].(dev := ROOTDEV, blockno := b, valid := false, refcnt := 1,
                                                            timestamp := now)])
  {
    hide Hash, Nth, Next, Oldest;
    var u := Goto(s, p, Scanning(b, n)).(locks := if n == 0 then s.locks else s.locks[Nth(b, n) := Some(p)]);
    assert Next(s, Step(p, LockNext), u) by { Locks(s, p, b, n, u); }
    if n == 0 {
      var v := Goto(u, p, Linked(b, x)).(mover := s.mover[x := Some(p)]);
      assert Next(u, Step(p, TakeOwn(x)), v) by { assert Recycles(u, p, TakeOwn(x), v); Steps(u, p, TakeOwn(x), v); }
      ss, acts := [s, u, v], [LockNext, TakeOwn(x)];
    } else {
      var v := Goto(u, p, Flying(b, x)).(mover := s.mover[x := Some(p)], locks := u.locks[Nth(b, n) := None],
                    buckets := s.buckets[Nth(b, n) := Without(s.buckets[Nth(b, n)], x)]);
      assert Next(u, Step(p, Steal(x)), v) by { assert Recycles(u, p, Steal(x), v); Steps(u, p, Steal(x), v); }
      var w := Goto(v, p, Linked(b, x)).(buckets := v.buckets[Hash(b) := [x] + v.buckets[Hash(b)]]);
      assert Next(v, Step(p, Relink), w) by { assert Recycles(v, p, Relink, w); Steps(v, p, Relink, w); }
      ss, acts := [s, u, v, w], [LockNext, Steal(x), Relink];
    }
    var w := ss[|acts|];
    var buf := s.bufs[x].(dev := ROOTDEV, blockno := b, valid := false, refcnt := 1, timestamp := now);
    var t := Update(w, p, Claimed(b, x), x, buf).(mover := w.mover[x := None]);
    assert Next(w, Step(p, Renumber(now)), t) by {
      assert Recycles(w, p, Renumber(now), t);
      Steps(w, p, Renumber(now), t);
    }
    assert Leads(ss, p, acts);
    LeadsOn(ss, p, acts, Renumber(now), t);
    ss, acts := ss + [t], acts + [Renumber(now)];
    assert t.locks == s.locks && t.mover == s.mover && t.users == s.users[p := Claimed(b, x)];
  }

  lemma Steps(s: State, p: nat, act: Act, s': State)
    requires Sized(s) && p < |s.users| && Recycles(s, p, act, s')
    ensures Next(s, Step(p, act), s')
  {}

  lemma Locks(s: State, p: nat, b: nat, n: nat, s': State)
    requires Sized(s) && p < |s.users| && s.users[p] == Missed(b, n) && n < NBUCKET
    requires n > 0 ==> s.locks[Nth(b, n)] == None
    requires s' == Goto(s, p, Scanning(b, n)).(locks := if n == 0 then s.locks else s.locks[Nth(b, n) := Some(p)])
    ensures Next(s, Step(p, LockNext), s')
  {
    hide Nth;
    assert Searches(s, p, LockNext, s');
  }

  /**
   bread of a block that is not cached: from any state in which no bucket lock is held, the oldest unused
   buffer of the first bucket that has one, counted from the block's own, moves to that one and holds
   what the disk has.
   */
  lemma MissCompletes(s: State, p: nat, b: nat, n: nat, x: nat, now: nat) returns (ss: seq<State>, acts: seq<Act>)
    requires Sized(s) && p < |s.users| && s.users[p] == Idle && b < |s.disk| && n < NBUCKET
    requires forall h :: 0 <= h < NBUCKET ==> s.locks[h] == None
    requires forall y :: y in s.buckets[Hash(b)] && y < NBUF ==> !Holds(s.bufs[y], b)
    requires forall m :: 0 <= m < n ==> AllUsed(s, Nth(b, m))
    requires x < NBUF && Oldest(s.bufs, s.buckets[Nth(b, n)], x) && s.mover[x] == None && s.holder[x] == None
    ensures Leads(ss, p, acts) && ss[0] == s
    ensures ss[|acts|] == s.(users := s.users[p := Holding(b, x)], holder := s.holder[x := Some(p)],
                             buckets := Moved(s, b, n, x),
                             bufs := s.bufs[x := Buf(ROOTDEV, b, true, 1, s.disk[b], now, true)])
  {
    hide Hash, Nth, Next, Oldest;
    var t, u, ss', acts';
    ss, t := Enters(s, p, b);
    acts := [Enter(b), LockBid];
    u := Goto(t, p, Missed(b, 0));
    Misses(t, p, b, u);
    LeadsOn(ss, p, acts, Miss, u);
    ss, acts := ss + [u], acts + [Miss];
    OthersFree(s.locks, p, b);
    assert forall m :: 0 <= m < n ==> AllUsed(u, Nth(b, m)) by {
      forall m | 0 <= m < n
        ensures AllUsed(u, Nth(b, m))
      {
        assert AllUsed(s, Nth(b, m));
      }
    }
    ss', acts' := Passes(u, p, b, n);
    LeadsThrough(ss, p, acts, ss', acts');
    ss, acts := ss + ss'[1..], acts + acts';
    var v := Goto(u, p, Missed(b, n));
    ss', acts' := Recycled(v, p, b, n, x, now);
    LeadsThrough(ss, p, acts, ss', acts');
    ss, acts := ss + ss'[1..], acts + acts';
    var w := ss[|acts|];
    var last;
    ss', last := Finishes(w, p, b, x);
    LeadsThrough(ss, p, acts, ss', [ReleaseBid, AcquireSleep, Fill]);
    ss, acts := ss + ss'[1..], acts + [ReleaseBid, AcquireSleep, Fill];
    assert last.locks == s.locks && last.users == s.users[p := Holding(b, x)];
    assert last.bufs == s.bufs[x := Buf(ROOTDEV, b, true, 1, s.disk[b], now, true)];
  }

  lemma Misses(s: State, p: nat, b: nat, s': State)
    requires Sized(s) && p < |s.users| && s.users[p] == Looking(b) && s' == Goto(s, p, Missed(b, 0))
    requires forall y :: y in s.buckets[Hash(b)] && y < NBUF ==> !Holds(s.bufs[y], b)
    ensures Next(s, Step(p, Miss), s')
  {
    assert Searches(s, p, Miss, s');
  }

  lemma OthersFree(locks: seq<Option<nat>>, p: nat, b: nat)
    requires |locks| == NBUCKET && forall h :: 0 <= h < NBUCKET ==> locks[h] == None
    ensures forall n :: 1 <= n < NBUCKET ==> locks[Hash(b) := Some(p)][Nth(b, n)] == None
  {
    forall n | 1 <= n < NBUCKET
      ensures Nth(b, n) != Hash(b)
    {
      NthIsAnother(b, n);
    }
  }

  /** A bucket with an unused buffer has a least recently used one among them. */
  lemma {:induction false} OldestOf(bufs: seq<Buf>, bucket: seq<nat>, y: nat) returns (x: nat)
    requires y in bucket && y < |bufs| && bufs[y].refcnt == 0
    ensures Oldest(bufs, bucket, x)
    decreases bufs[y].timestamp
  {
    if z :| z in bucket && z < |bufs| && bufs[z].refcnt == 0 && bufs[z].timestamp < bufs[y].timestamp {
      x := OldestOf(bufs, bucket, z);
    } else {
      x := y;
    }
  }

  /** Going round from the block's own bucket, there is a first one with an unused buffer. */
  lemma {:induction false} FirstBucket(s: State, b: nat, n: nat) returns (m: nat)
    requires Sized(s) && n < NBUCKET && !AllUsed(s, Nth(b, n))
    ensures m <= n && !AllUsed(s, Nth(b, m)) && forall k :: 0 <= k < m ==> AllUsed(s, Nth(b, k))
  {
    if k :| 0 <= k < n && !AllUsed(s, Nth(b, k)) {
      m := FirstBucket(s, b, k);
    } else {
      m := n;
    }
  }

  /** Every bucket is reached from the block's own. */
  lemma Reached(b: nat, h: nat) returns (n: nat)
    requires h < NBUCKET
    ensures n < NBUCKET && Nth(b, n) == h
  {
    n := (h + NBUCKET - Hash(b)) % NBUCKET;
  }

  /** In a state of a run without bucket locks held, an unused buffer is on the bucket of its block. */
  lemma UnusedIsListed(s: State, y: nat)
    requires Inv(s) && y < NBUF && forall h :: 0 <= h < NBUCKET ==> s.locks[h] == None
    ensures s.mover[y] == None && y in s.buckets[Hash(s.bufs[y].blockno)]
  {
    hide Hash, IndexOk, UniqueOk, CountsOk, BuffersOk, UsersOk;
    NotMoving(s, y);
    FreeBucketExact(s, Hash(s.bufs[y].blockno));
  }

  lemma NotMoving(s: State, y: nat)
    requires Inv(s) && y < NBUF && forall h :: 0 <= h < NBUCKET ==> s.locks[h] == None
    ensures s.mover[y] == None
  {
    hide IndexOk, UniqueOk, CountsOk, BuffersOk, UsersOk;
    if s.mover[y].Some? {
      MoverLocks(s, y);
    }
  }

  /**
   In any state of any run in which no bucket lock is held, bread gets its block: from the buffer that
   stands for it, if nobody holds that, and otherwise as long as any buffer is unused.
   */
  lemma BreadCompletes(states: seq<State>, steps: seq<Step>, i: nat, p: nat, b: nat, now: nat)
    returns (ss: seq<State>, acts: seq<Act>, x: nat)
    requires Run(states, steps) && i < |states| && Sized(states[i])
    requires p < |states[i].users| && states[i].users[p] == Idle && b < |states[i].disk|
    requires forall h :: 0 <= h < NBUCKET ==> states[i].locks[h] == None
    requires forall y :: 0 <= y < NBUF && Settled(states[i], y, b) ==> states[i].holder[y] == None
    requires exists y :: 0 <= y < NBUF && (Settled(states[i], y, b) || states[i].bufs[y].refcnt == 0)
    ensures Leads(ss, p, acts) && ss[0] == states[i]
    ensures
      var s, t := states[i], ss[|acts|];
      && x < NBUF && Sized(t) && t.users == s.users[p := Holding(b, x)] && t.disk == s.disk
      && t.bufs[x].valid && Holds(t.bufs[x], b)
      && t.bufs[x].data == if Settled(s, x, b) && s.bufs[x].valid then s.bufs[x].data else s.disk[b]
  {
    hide Run, Inv, Next, Hash, Nth, Oldest, IndexOk, UniqueOk, CountsOk, BuffersOk, UsersOk, LocksOk, HoldersOk;
    var s := states[i];
    RunInv(states, steps, i);
    if y: nat :| y < NBUF && Settled(s, y, b) {
      x := y;
      UnusedIsListed(s, x);
      ss, acts := HitCompletes(s, p, b, x, now);
    } else {
      var y: nat :| y < NBUF && s.bufs[y].refcnt == 0;
      NotCached(s, b);
      UnusedIsListed(s, y);
      var n := Reached(b, Hash(s.bufs[y].blockno));
      assert !AllUsed(s, Nth(b, n));
      var m := FirstBucket(s, b, n);
      var z: nat :| z in s.buckets[Nth(b, m)] && z < NBUF && s.bufs[z].refcnt == 0;
      x := OldestOf(s.bufs, s.buckets[Nth(b, m)], z);
      IsUnused(s, Nth(b, m), x);
      NotMoving(s, x);
      ss, acts := MissCompletes(s, p, b, m, x, now);
    }
  }

  lemma NotCached(s: State, b: nat)
    requires Inv(s) && (forall h :: 0 <= h < NBUCKET ==> s.locks[h] == None)
    requires forall y :: 0 <= y < NBUF ==> !Settled(s, y, b)
    ensures forall y :: y in s.buckets[Hash(b)] && y < NBUF ==> !Holds(s.bufs[y], b)
  {
    hide Hash, IndexOk, UniqueOk, CountsOk, BuffersOk, UsersOk;
    forall y: nat | y < NBUF
      ensures !Holds(s.bufs[y], b)
    {
      NotMoving(s, y);
      assert !Settled(s, y, b);
    }
  }

  lemma IsUnused(s: State, h: nat, x: nat)
    requires Inv(s) && h < NBUCKET && Oldest(s.bufs, s.buckets[h], x)
    ensures x < NBUF && s.holder[x] == None
  {
    hide Hash, IndexOk, UniqueOk, BuffersOk, UsersOk;
    UnusedIsUnheld(s, x);
  }

  // ---- What the holder does, and brelse ----

  /** The holder changes the contents, and bwrite puts them on the disk. */
  lemma WriteCompletes(s: State, p: nat, b: nat, x: nat, data: Block) returns (ss: seq<State>, t: State)
    requires Sized(s) && p < |s.users| && s.users[p] == Holding(b, x) && x < NBUF && b < |s.disk|
    ensures Leads(ss, p, [Modify(data), Write]) && ss[0] == s && ss[2] == t
    ensures t == s.(bufs := s.bufs[x := s.bufs[x].(data := data)], disk := s.disk[b := data])
  {
    var s1 := Update(s, p, Holding(b, x), x, s.bufs[x].(data := data));
    t := s1.(disk := s.disk[b := data]);
    assert s1.users == s.users;
    assert Uses(s, p, Modify(data), s1);
    assert Uses(s1, p, Write, t);
    ss := [s, s1, t];
  }

  lemma CallsPin(s: State, p: nat, b: nat, x: nat, up: bool, s': State)
    requires Sized(s) && p < |s.users| && s.users[p] == Holding(b, x) && s' == Goto(s, p, Pinning(b, x, up))
    ensures Next(s, Step(p, CallPin(up)), s')
  {
    assert Counts(s, p, CallPin(up), s');
  }

  lemma LocksPin(s: State, p: nat, b: nat, x: nat, up: bool, s': State)
    requires Sized(s) && p < |s.users| && s.users[p] == Pinning(b, x, up) && s.locks[Hash(b)] == None
    requires s' == Goto(s, p, PinLocked(b, x, up)).(locks := s.locks[Hash(b) := Some(p)])
    ensures Next(s, Step(p, LockPin), s')
  {
    assert Counts(s, p, LockPin, s');
  }

  lemma Pins(s: State, p: nat, b: nat, x: nat, up: bool, s': State)
    requires Sized(s) && p < |s.users| && s.users[p] == PinLocked(b, x, up) && x < NBUF && s.pinned[x] != up
    requires var n := s.bufs[x].refcnt;
      s' == Update(s, p, Holding(b, x), x, s.bufs[x].(refcnt := if up then Inc(n) else Dec(n)))
            .(pinned := s.pinned[x := up], locks := s.locks[Hash(b) := None])
    ensures Next(s, Step(p, Pin), s')
  {
    assert Counts(s, p, Pin, s');
  }

  lemma LetsGo(s: State, p: nat, b: nat, x: nat, s': State)
    requires Sized(s) && p < |s.users| && s.users[p] == Holding(b, x) && x < NBUF && b < |s.disk|
    requires s.pinned[x] || s.bufs[x].data == s.disk[b]
    requires s' == Update(s, p, Dropping(b, x), x, s.bufs[x].(locked := false)).(holder := s.holder[x := None])
    ensures Next(s, Step(p, LetGo), s')
  {
    assert Counts(s, p, LetGo, s');
  }

  lemma LocksDrop(s: State, p: nat, b: nat, x: nat, s': State)
    requires Sized(s) && p < |s.users| && s.users[p] == Dropping(b, x) && s.locks[Hash(b)] == None
    requires s' == Goto(s, p, DropLocked(b, x)).(locks := s.locks[Hash(b) := Some(p)])
    ensures Next(s, Step(p, LockDrop), s')
  {
    assert Counts(s, p, LockDrop, s');
  }

  lemma Drops(s: State, p: nat, b: nat, x: nat, now: nat, s': State)
    requires Sized(s) && p < |s.users| && s.users[p] == DropLocked(b, x) && x < NBUF
    requires s' == Update(s, p, Idle, x, s.bufs[x].(refcnt := Dec(s.bufs[x].refcnt), timestamp := now))
                   .(locks := s.locks[Hash(b) := None])
    ensures Next(s, Step(p, Drop(now)), s')
  {
    assert Counts(s, p, Drop(now), s');
  }

  /** bpin and bunpin: one count more or less. */
  lemma PinCompletes(s: State, p: nat, b: nat, x: nat, up: bool) returns (ss: seq<State>, t: State)
    requires Sized(s) && p < |s.users| && s.users[p] == Holding(b, x) && x < NBUF && s.locks[Hash(b)] == None
    requires s.pinned[x] != up
    ensures Leads(ss, p, [CallPin(up), LockPin, Pin]) && ss[0] == s && ss[3] == t
    ensures
      var n := s.bufs[x].refcnt;
      t == s.(bufs := s.bufs[x := s.bufs[x].(refcnt := if up then Inc(n) else Dec(n))], pinned := s.pinned[x := up])
  {
    hide Hash, Next;
    var n := s.bufs[x].refcnt;
    var s1 := Goto(s, p, Pinning(b, x, up));
    var s2 := Goto(s1, p, PinLocked(b, x, up)).(locks := s.locks[Hash(b) := Some(p)]);
    t := Update(s2, p, Holding(b, x), x, s.bufs[x].(refcnt := if up then Inc(n) else Dec(n)))
         .(pinned := s.pinned[x := up], locks := s2.locks[Hash(b) := None]);
    hide Counts;
    CallsPin(s, p, b, x, up, s1);
    LocksPin(s1, p, b, x, up, s2);
    Pins(s2, p, b, x, up, t);
    ss := [s, s1, s2, t];
    assert t.locks == s.locks && t.users == s.users;
  }

  /** brelse: unlocked, and one count less. */
  lemma ReleaseCompletes(s: State, p: nat, b: nat, x: nat, now: nat) returns (ss: seq<State>, t: State)
    requires Sized(s) && p < |s.users| && s.users[p] == Holding(b, x) && x < NBUF && b < |s.disk|
    requires s.locks[Hash(b)] == None && (s.pinned[x] || s.bufs[x].data == s.disk[b])
    ensures Leads(ss, p, [LetGo, LockDrop, Drop(now)]) && ss[0] == s && ss[3] == t
    ensures
      var buf := s.bufs[x].(locked := false, refcnt := Dec(s.bufs[x].refcnt), timestamp := now);
      t == s.(users := s.users[p := Idle], holder := s.holder[x := None], bufs := s.bufs[x := buf])
  {
    hide Hash, Next;
    var s1 := Update(s, p, Dropping(b, x), x, s.bufs[x].(locked := false)).(holder := s.holder[x := None]);
    var s2 := Goto(s1, p, DropLocked(b, x)).(locks := s.locks[Hash(b) := Some(p)]);
    t := Update(s2, p, Idle, x, s2.bufs[x].(refcnt := Dec(s2.bufs[x].refcnt), timestamp := now))
         .(locks := s2.locks[Hash(b) := None]);
    hide Counts;
    LetsGo(s, p, b, x, s1);
    LocksDrop(s1, p, b, x, s2);
    Drops(s2, p, b, x, now, t);
    ss := [s, s1, s2, t];
    assert t.locks == s.locks && t.users == s.users[p := Idle];
  }
}
