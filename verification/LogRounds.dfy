/**
 The steps of write_log, write_head, install_trans, log_write and brelse, as they
 act on the buffer pool and on the sequence of disk states.

 A step reads one or two buffers, changes them and releases them; each lemma says
 that the accounting of module Pins holds again afterwards.
 */
module LogRounds {
  import opened Blocks
  import opened BufferCache
  import opened Common
  import opened RedoLog
  import opened Pins

  /** The disks after the first `k` installs, oldest first. */
  ghost function InstallTrace(l: Layout, d: Disk, blocks: seq<nat>, k: nat): (t: seq<Disk>)
    requires Fits(l, d) && Loggable(l, |d|, blocks) && k <= |blocks|
    ensures |t| == k
  {
    seq(k, i requires 0 <= i < k => Installed(l, d, blocks, i + 1))
  }

  lemma InstalledNone(l: Layout, d: Disk, blocks: seq<nat>)
    requires Fits(l, d) && Loggable(l, |d|, blocks)
    ensures Installed(l, d, blocks, 0) == d
  {}

  lemma InstallTraceNext(l: Layout, d: Disk, blocks: seq<nat>, k: nat, c: Disk, e: Disk)
    requires Fits(l, d) && Loggable(l, |d|, blocks) && k < |blocks|
    requires c == Installed(l, d, blocks, k) && e == c[blocks[k] := c[l.start + k + 1]]
    ensures e == Installed(l, d, blocks, k + 1)
    ensures InstallTrace(l, d, blocks, k + 1) == InstallTrace(l, d, blocks, k) + [e]
  {}

  /** The disks after the first `k` writes of a commit, oldest first. */
  ghost function CommitTrace(l: Layout, d: Disk, blocks: seq<nat>, contents: seq<Block>, k: nat): (t: seq<Disk>)
    requires Fits(l, d) && Loggable(l, |d|, blocks) && |contents| == |blocks| && k <= 2 * |blocks| + 2
    ensures |t| == k
  {
    seq(k, i requires 0 <= i < k => CommitState(l, d, blocks, contents, i + 1))
  }

  /** The disks after the first `k` writes of a recovery, oldest first. */
  ghost function RecoveryTrace(l: Layout, d: Disk, k: nat): (t: seq<Disk>)
    requires HeaderOk(l, d) && k <= |Committed(l, d)| + 1
    ensures |t| == k
  {
    seq(k, i requires 0 <= i < k => RecoveryState(l, d, i + 1))
  }

  lemma CommitTraceNext(l: Layout, d: Disk, blocks: seq<nat>, contents: seq<Block>, k: nat)
    requires Fits(l, d) && Loggable(l, |d|, blocks) && |contents| == |blocks| && k <= 2 * |blocks| + 1
    ensures CommitTrace(l, d, blocks, contents, k + 1)
         == CommitTrace(l, d, blocks, contents, k) + [CommitState(l, d, blocks, contents, k + 1)]
  {}

  lemma CommitTraceInstalls(l: Layout, d: Disk, blocks: seq<nat>, contents: seq<Block>, c: Disk, k: nat)
    requires Fits(l, d) && Loggable(l, |d|, blocks) && |contents| == |blocks| && k <= |blocks|
    requires c == CommitState(l, d, blocks, contents, |blocks| + 1)
    ensures CommitTrace(l, d, blocks, contents, |blocks| + 1) + InstallTrace(l, c, blocks, k)
         == CommitTrace(l, d, blocks, contents, |blocks| + 1 + k)
    ensures CommitState(l, d, blocks, contents, |blocks| + 1 + k) == Installed(l, c, blocks, k)
  {}

  lemma CommitStateLast(l: Layout, d: Disk, blocks: seq<nat>, contents: seq<Block>, c: Disk)
    requires Fits(l, d) && Loggable(l, |d|, blocks) && |contents| == |blocks|
    requires c == CommitState(l, d, blocks, contents, |blocks| + 1)
    ensures |c| == |d| && Loggable(l, |d|, [])
    ensures CommitState(l, d, blocks, contents, 2 * |blocks| + 2) ==
      WithHeader(l, Installed(l, c, blocks, |blocks|), [])
  {}

  lemma HeaderIsNotLogged(l: Layout, size: nat, blocks: seq<nat>)
    requires Loggable(l, size, blocks) && l.size >= 1
    ensures l.start !in Elems(blocks)
  {
    InFirst(blocks, |blocks|, l.start);
    assert InLog(l, l.start);
  }

  lemma RecoveryTraceInstalls(l: Layout, d: Disk, k: nat)
    requires HeaderOk(l, d) && k <= |Committed(l, d)|
    ensures InstallTrace(l, d, Committed(l, d), k) == RecoveryTrace(l, d, k)
    ensures k == |Committed(l, d)| ==> RecoveryTrace(l, d, k) + [Recovered(l, d)] == RecoveryTrace(l, d, k + 1)
  {}

  /** The buffers that must stay cached during install_trans. */
  function Kept(todo: set<nat>, done: set<nat>, pin: nat): set<nat> {
    if pin == 1 then todo else done
  }

  /** The blocks whose buffers are ahead of the disk during install_trans. */
  function Dirty(todo: set<nat>, pin: nat): set<nat> {
    if pin == 1 then todo else {}
  }

  lemma KeptInUse(bufs: seq<Buf>, todo: set<nat>, done: set<nat>, pin: nat, b: Buf)
    requires Accounted(bufs, todo, done, pin) && todo !! done && pin <= 1 && b in bufs
    ensures b.dev == ROOTDEV && b.blockno in Kept(todo, done, pin) && !b.locked ==> b.refcnt != 0
    ensures !b.locked && b.refcnt != 0 ==> b.dev == ROOTDEV && b.blockno in Kept(todo, done, pin)
  {}

  /** Log block `lb` is held in buffer `i` and home block `hb` in buffer `j`; no other buffer is held. */
  ghost predicate Fetched(b2: seq<Buf>, d: Disk, lb: nat, hb: nat, i: nat, j: nat,
                          todo: set<nat>, done: set<nat>, pin: nat)
  {
    && pin <= 1 && todo !! done
    && i < |b2| && j < |b2| && i != j && lb < |d| && hb < |d|
    && Holds(b2[i], lb) && Holds(b2[j], hb) && b2[j].valid && b2[i].data == d[lb]
    && (forall m :: 0 <= m < |b2| ==> (b2[m].locked <==> m == i || m == j))
    && Accounted(b2, todo, done, pin)
    && Coherent(b2, d, Dirty(todo, pin))
    && AllCached(b2, Kept(todo, done, pin))
  }

  /** The two reads of a round of install_trans. */
  lemma InstallReads(b0: seq<Buf>, b1: seq<Buf>, b2: seq<Buf>, d: Disk, lb: nat, hb: nat, i: nat, j: nat,
                     todo: set<nat>, done: set<nat>, pin: nat)
    requires Stage(b0, d, todo, done, pin)
    requires lb !in todo && lb !in done && hb in todo
    requires ReadInto(b0, b1, d, lb, i) && ReadInto(b1, b2, d, hb, j)
    ensures Fetched(b2, d, lb, hb, i, j, todo, done, pin)
  {
    ReadStep(b0, b1, d, lb, i, todo, done, pin, Dirty(todo, pin));
    forall m | 0 <= m < |b0| { KeptInUse(b0, todo, done, pin, b0[m]); }
    ReadKeepsPinned(b0, b1, d, lb, i, Kept(todo, done, pin));
    assert !Holds(b1[i], hb);
    ReadStep(b1, b2, d, hb, j, todo, done, pin, Dirty(todo, pin));
    forall m | 0 <= m < |b1| { KeptInUse(b1, todo, done, pin, b1[m]); }
    ReadKeepsPinned(b1, b2, d, hb, j, Kept(todo, done, pin));
  }

  lemma DecWraps(x: int)
    ensures Dec(x % UINT_LIMIT) == (x - 1) % UINT_LIMIT
  {}

  /** The rest of the round: the log block is copied over the home block, which is unpinned; both are released. */
  ghost predicate Copied(b2: seq<Buf>, b3: seq<Buf>, i: nat, j: nat, data: Block) {
    && i < |b2| == |b3| && j < |b2| && i != j
    && (forall m :: 0 <= m < |b2| ==> (b2[m].locked <==> m == i || m == j))
    && (forall m :: 0 <= m < |b2| && m != i && m != j ==> b3[m] == b2[m])
    && b3[i] == b2[i].(refcnt := Dec(b2[i].refcnt), locked := false, timestamp := b3[i].timestamp)
    && b3[j] == b2[j].(data := data, refcnt := Dec(Dec(b2[j].refcnt)), locked := false, timestamp := b3[j].timestamp)
  }

  lemma CopiedAccounted(b2: seq<Buf>, b3: seq<Buf>, i: nat, j: nat, data: Block,
                        todo: set<nat>, done: set<nat>, pin: nat)
    requires Copied(b2, b3, i, j, data) && Unique(b2) && Accounted(b2, todo, done, pin) && todo !! done
    requires b2[i].dev == b2[j].dev == ROOTDEV && b2[j].blockno in todo && b2[i].blockno !in todo + done
    ensures Accounted(b3, todo - {b2[j].blockno}, done + {b2[j].blockno}, pin)
  {
    var hb := b2[j].blockno;
    forall m | 0 <= m < |b3|
      ensures b3[m].refcnt == Owed(b3[m], todo - {hb}, done + {hb}, pin) % UINT_LIMIT
    {
      var owed := Owed(b2[m], todo, done, pin);
      DecWraps(owed);
      DecWraps(owed - 1);
      assert m != j ==> !Holds(b2[m], hb);
    }
  }

  lemma CopiedCoherent(b2: seq<Buf>, b3: seq<Buf>, d: Disk, i: nat, j: nat, todo: set<nat>, pin: nat)
    requires i < |b2| && j < |b2| && b2[i].dev == b2[j].dev == ROOTDEV && b2[i].blockno < |d| && b2[j].blockno < |d|
    requires Copied(b2, b3, i, j, d[b2[i].blockno]) && Unique(b2) && Coherent(b2, d, Dirty(todo, pin))
    requires b2[i].data == d[b2[i].blockno]
    ensures Coherent(b3, d[b2[j].blockno := d[b2[i].blockno]], Dirty(todo - {b2[j].blockno}, pin))
  {
    assert forall m :: 0 <= m < |b2| && m != j ==> !Holds(b2[m], b2[j].blockno);
  }

  lemma CopiedCached(b2: seq<Buf>, b3: seq<Buf>, i: nat, j: nat, data: Block, kept: set<nat>, kept': set<nat>)
    requires Copied(b2, b3, i, j, data) && AllCached(b2, kept)
    requires b2[j].dev == ROOTDEV && b2[j].valid && kept' <= kept + {b2[j].blockno}
    requires Unique(b2)
    ensures AllCached(b3, kept')
  {
    forall x | x in kept'
      ensures Cached(b3, x)
    {
      if x == b2[j].blockno {
        assert Holds(b3[j], x);
      } else {
        var m :| 0 <= m < |b2| && Holds(b2[m], x);
        assert Holds(b3[m], x);
      }
    }
    assert forall m :: 0 <= m < |b2| && m != j ==> !Holds(b2[m], b2[j].blockno);
  }

  /** The pool part way through install_trans: `todo` waits to be installed, `done` is. */
  ghost predicate Stage(bufs: seq<Buf>, disk: Disk, todo: set<nat>, done: set<nat>, pin: nat) {
    && pin <= 1
    && todo !! done
    && Unlocked(bufs)
    && Accounted(bufs, todo, done, pin)
    && Coherent(bufs, disk, Dirty(todo, pin))
    && AllCached(bufs, Kept(todo, done, pin))
  }

  /** A round of install_trans moves one block from `todo` to `done`. */
  lemma InstallRound(b2: seq<Buf>, b3: seq<Buf>, d: Disk, lb: nat, hb: nat, i: nat, j: nat,
                     todo: set<nat>, done: set<nat>, pin: nat)
    requires Fetched(b2, d, lb, hb, i, j, todo, done, pin) && Unique(b2)
    requires lb !in todo && lb !in done && hb in todo
    requires Copied(b2, b3, i, j, d[lb])
    ensures Stage(b3, d[hb := d[lb]], todo - {hb}, done + {hb}, pin)
  {
    CopiedAccounted(b2, b3, i, j, d[lb], todo, done, pin);
    CopiedCoherent(b2, b3, d, i, j, todo, pin);
    CopiedCached(b2, b3, i, j, d[lb], Kept(todo, done, pin), Kept(todo - {hb}, done + {hb}, pin));
  }

  /** The next block to install is not yet installed, and its log block is no home block. */
  lemma NextBlock(l: Layout, size: nat, blocks: seq<nat>, tail: nat)
    requires Loggable(l, size, blocks) && tail < |blocks|
    ensures blocks[tail] in Elems(blocks) && blocks[tail] !in First(blocks, tail)
    ensures l.start + tail + 1 !in Elems(blocks)
  {
    InFirst(blocks, |blocks|, blocks[tail]);
    InFirst(blocks, tail, blocks[tail]);
    InFirst(blocks, |blocks|, l.start + tail + 1);
    assert InLog(l, l.start + tail + 1);
  }

  /** The first `tail` blocks are behind, the rest still to do. */
  ghost predicate Passed(blocks: seq<nat>, tail: nat, todo: set<nat>, done: set<nat>)
    requires tail <= |blocks|
  {
    && done == First(blocks, tail)
    && todo == Elems(blocks) - done
    && |done| == tail && |todo| == |blocks| - tail
  }

  lemma LoggedOnce(l: Layout, size: nat, blocks: seq<nat>)
    requires Loggable(l, size, blocks)
    ensures Distinct(blocks)
  {}

  lemma PassedNone(blocks: seq<nat>)
    requires Distinct(blocks)
    ensures Passed(blocks, 0, Elems(blocks), {})
  {
    FirstSize(blocks, |blocks|);
  }

  lemma PassedNext(l: Layout, size: nat, blocks: seq<nat>, tail: nat, todo: set<nat>, done: set<nat>)
    requires Loggable(l, size, blocks) && tail < |blocks| && Passed(blocks, tail, todo, done)
    ensures blocks[tail] < size && blocks[tail] in todo && |todo| + |done| == |blocks| && |done| == tail
    ensures l.start + tail + 1 < l.start + l.size && l.start + tail + 1 !in todo && l.start + tail + 1 !in done
    ensures Passed(blocks, tail + 1, todo - {blocks[tail]}, done + {blocks[tail]})
  {
    NextBlock(l, size, blocks, tail);
    InFirst(blocks, tail, l.start + tail + 1);
    InFirst(blocks, |blocks|, l.start + tail + 1);
  }

  lemma PassedAll(blocks: seq<nat>, todo: set<nat>, done: set<nat>)
    requires Passed(blocks, |blocks|, todo, done)
    ensures todo == {} && done == Elems(blocks)
  {}

  /** With fewer blocks logged than there are buffers, a round finds a buffer for its log block ... */
  lemma RoomForLog(b0: seq<Buf>, d: Disk, todo: set<nat>, done: set<nat>, pin: nat, b: nat)
    requires Stage(b0, d, todo, done, pin) && Unique(b0)
    requires |Kept(todo, done, pin)| < |b0|
    ensures !NoRoom(b0, b)
  {
    forall m | 0 <= m < |b0| { KeptInUse(b0, todo, done, pin, b0[m]); }
    SpareBuffer(b0, Kept(todo, done, pin));
  }

  /** ... and, holding that, one for its home block. */
  lemma RoomForHome(b0: seq<Buf>, b1: seq<Buf>, d: Disk, lb: nat, i: nat, todo: set<nat>, done: set<nat>, pin: nat,
                    hb: nat)
    requires Stage(b0, d, todo, done, pin) && Unique(b1)
    requires ReadInto(b0, b1, d, lb, i)
    requires hb in todo && |done| + 1 < |b0|
    ensures !NoRoom(b1, hb)
  {
    forall m | 0 <= m < |b0| { KeptInUse(b0, todo, done, pin, b0[m]); }
    if pin == 1 {
      ReadKeepsPinned(b0, b1, d, lb, i, todo);
      assert Cached(b1, hb);
    } else {
      assert |done + {lb}| <= |done| + 1;
      SpareBuffer(b1, done + {lb});
    }
  }

  /** The round of write_log: the pinned home block in buffer `j` is copied over the log block in buffer `i`. */
  ghost predicate CopiedOut(b2: seq<Buf>, b3: seq<Buf>, i: nat, j: nat) {
    && i < |b2| == |b3| && j < |b2| && i != j
    && (forall m :: 0 <= m < |b2| ==> (b2[m].locked <==> m == i || m == j))
    && (forall m :: 0 <= m < |b2| && m != i && m != j ==> b3[m] == b2[m])
    && b3[i] == b2[i].(data := b2[j].data, refcnt := Dec(b2[i].refcnt), locked := false, timestamp := b3[i].timestamp)
    && b3[j] == b2[j].(refcnt := Dec(b2[j].refcnt), locked := false, timestamp := b3[j].timestamp)
  }

  lemma CopyOutRound(b2: seq<Buf>, b3: seq<Buf>, d: Disk, lb: nat, hb: nat, i: nat, j: nat, all: set<nat>)
    requires Fetched(b2, d, lb, hb, i, j, all, {}, 1) && Unique(b2) && lb !in all && hb in all
    requires CopiedOut(b2, b3, i, j)
    ensures Stage(b3, d[lb := b2[j].data], all, {}, 1)
  {
    assert forall m :: 0 <= m < |b2| && m != i ==> !Holds(b2[m], lb);
    forall m | 0 <= m < |b3|
      ensures b3[m].refcnt == Owed(b3[m], all, {}, 1) % UINT_LIMIT
    {
      DecWraps(Owed(b2[m], all, {}, 1));
    }
    forall x | x in all
      ensures Cached(b3, x)
    {
      var m :| 0 <= m < |b2| && Holds(b2[m], x);
      assert Holds(b3[m], x);
    }
  }

  /** Every buffer of a pinned block still holds that block, with the same data. */
  ghost predicate KeepsPinned(before: seq<Buf>, after: seq<Buf>, pinned: set<nat>) {
    && |before| == |after|
    && forall m :: 0 <= m < |before| && before[m].dev == ROOTDEV && before[m].blockno in pinned ==>
         Holds(after[m], before[m].blockno) && after[m].data == before[m].data
  }

  lemma ReadsKeepPinned(b0: seq<Buf>, b1: seq<Buf>, b2: seq<Buf>, d: Disk, lb: nat, hb: nat, i: nat, j: nat,
                        all: set<nat>)
    requires Stage(b0, d, all, {}, 1) && lb !in all && hb in all
    requires ReadInto(b0, b1, d, lb, i) && ReadInto(b1, b2, d, hb, j)
    ensures KeepsPinned(b0, b2, all)
  {
    forall m | 0 <= m < |b0| { KeptInUse(b0, all, {}, 1, b0[m]); }
    ReadStep(b0, b1, d, lb, i, all, {}, 1, Dirty(all, 1));
    forall m | 0 <= m < |b1| { KeptInUse(b1, all, {}, 1, b1[m]); }
    ReadKeepsPinned(b0, b1, d, lb, i, all);
  }

  lemma HomeData(b0: seq<Buf>, b2: seq<Buf>, d: Disk, hb: nat, j: nat, all: set<nat>, data: Block)
    requires Unique(b2) && Stage(b0, d, all, {}, 1) && KeepsPinned(b0, b2, all) && hb in all && j < |b2|
    requires Holds(b2[j], hb)
    requires forall m :: 0 <= m < |b0| && Holds(b0[m], hb) ==> b0[m].data == data
    ensures b2[j].data == data
  {
    var m :| 0 <= m < |b0| && Holds(b0[m], hb);
    assert Holds(b2[m], hb);
  }

  /** With every buffer pinned there is none for a log block. */
  lemma NoRoomForLog(b0: seq<Buf>, d: Disk, todo: set<nat>, done: set<nat>, lb: nat)
    requires Stage(b0, d, todo, done, 1) && |todo| == |b0| && lb !in todo
    ensures NoRoom(b0, lb)
  {
    forall m | 0 <= m < |b0|
      ensures !Holds(b0[m], lb) && b0[m].refcnt != 0
    {
      NoSpareBuffer(b0, todo, m);
      KeptInUse(b0, todo, done, 1, b0[m]);
    }
  }

  /** The buffers of the logged blocks hold `contents`. */
  ghost predicate Pending(bufs: seq<Buf>, blocks: seq<nat>, contents: seq<Block>)
    requires |contents| == |blocks|
  {
    && AllCached(bufs, Elems(blocks))
    && forall m, i :: 0 <= m < |bufs| && 0 <= i < |blocks| && Holds(bufs[m], blocks[i]) ==> bufs[m].data == contents[i]
  }

  lemma PendingKept(before: seq<Buf>, after: seq<Buf>, d: Disk, blocks: seq<nat>, contents: seq<Block>)
    requires |contents| == |blocks| && Pending(before, blocks, contents)
    requires KeepsPinned(before, after, Elems(blocks)) && Stage(after, d, Elems(blocks), {}, 1) && Unique(after)
    ensures Pending(after, blocks, contents)
  {
    forall m, i | 0 <= m < |after| && 0 <= i < |blocks| && Holds(after[m], blocks[i])
      ensures after[m].data == contents[i]
    {
      InFirst(blocks, |blocks|, blocks[i]);
      var j :| 0 <= j < |before| && Holds(before[j], blocks[i]);
      assert Holds(after[j], blocks[i]);
    }
  }

  lemma LoggedNone(l: Layout, d: Disk, contents: seq<Block>)
    requires Fits(l, d) && |contents| < l.size
    ensures Logged(l, d, contents, 0) == d
  {}

  lemma LoggedNext(l: Layout, d: Disk, contents: seq<Block>, k: nat, c: Disk, e: Disk)
    requires Fits(l, d) && k < |contents| < l.size
    requires c == Logged(l, d, contents, k) && |c| == |d| && e == c[l.start + k + 1 := contents[k]]
    ensures e == Logged(l, d, contents, k + 1)
  {}

  /** write_head on the pool: the header block is read, filled with `h`, written and released. */
  lemma HeadRound(b0: seq<Buf>, b1: seq<Buf>, b3: seq<Buf>, d: Disk, hb: nat, i: nat, h: Block,
                  todo: set<nat>, done: set<nat>, pin: nat)
    requires Stage(b0, d, todo, done, pin) && hb !in todo && hb !in done && Unique(b1)
    requires ReadInto(b0, b1, d, hb, i)
    requires |b3| == |b1| && (forall m :: 0 <= m < |b1| && m != i ==> b3[m] == b1[m])
    requires b3[i] == b1[i].(data := h, refcnt := Dec(b1[i].refcnt), locked := false, timestamp := b3[i].timestamp)
    ensures b1[i].data == d[hb]
    ensures Stage(b3, d[hb := h], todo, done, pin)
  {
    ReadStep(b0, b1, d, hb, i, todo, done, pin, Dirty(todo, pin));
    forall m | 0 <= m < |b0| { KeptInUse(b0, todo, done, pin, b0[m]); }
    ReadKeepsPinned(b0, b1, d, hb, i, Kept(todo, done, pin));
    assert forall m :: 0 <= m < |b1| && m != i ==> !Holds(b1[m], hb);
    forall m | 0 <= m < |b3|
      ensures b3[m].refcnt == Owed(b3[m], todo, done, pin) % UINT_LIMIT
    {
      DecWraps(Owed(b1[m], todo, done, pin));
    }
    forall x | x in Kept(todo, done, pin)
      ensures Cached(b3, x)
    {
      var m :| 0 <= m < |b1| && Holds(b1[m], x);
      assert Holds(b3[m], x);
    }
  }

  /** What the logged blocks currently hold. */
  ghost function Contents(bufs: seq<Buf>, disk: Disk, blocks: seq<nat>): (c: seq<Block>)
    requires forall i :: 0 <= i < |blocks| ==> blocks[i] < |disk|
    ensures |c| == |blocks|
  {
    seq(|blocks|, i requires 0 <= i < |blocks| => Current(bufs, disk, blocks[i]))
  }

  /** At the start of a commit the logged blocks are all still to be installed ... */
  lemma StageAtStart(bufs: seq<Buf>, d: Disk, l: Layout, blocks: seq<nat>)
    requires Accounts(bufs, d, Elems(blocks))
    requires Unlocked(bufs) && Unique(bufs) && Fits(l, d) && Loggable(l, |d|, blocks)
    ensures Stage(bufs, d, Elems(blocks), {}, 1)
    ensures Pending(bufs, blocks, Contents(bufs, d, blocks))
    ensures l.start !in Elems(blocks) && |Elems(blocks)| == |blocks|
  {
    FirstSize(blocks, |blocks|);
    InFirst(blocks, |blocks|, l.start);
    assert InLog(l, l.start);
    forall m, i | 0 <= m < |bufs| && 0 <= i < |blocks| && Holds(bufs[m], blocks[i])
      ensures bufs[m].data == Contents(bufs, d, blocks)[i]
    {
      InFirst(blocks, |blocks|, blocks[i]);
      CurrentIs(bufs, d, blocks[i], m);
    }
  }

  /** ... and at its end none carries a pin or differs from the disk. */
  lemma StageAtEnd(bufs: seq<Buf>, d: Disk, done: set<nat>)
    requires Stage(bufs, d, {}, done, 1)
    ensures Unlocked(bufs) && Accounts(bufs, d, Elems([]))
  {}

  /** Applying the logged contents to the disk gives what the blocks read as. */
  lemma AppliedIsView(l: Layout, bufs: seq<Buf>, d: Disk, blocks: seq<nat>)
    requires Accounts(bufs, d, Elems(blocks)) && Unlocked(bufs) && Loggable(l, |d|, blocks)
    ensures SameHome(l, Applied(d, blocks, Contents(bufs, d, blocks)), View(bufs, d))
  {
    var contents := Contents(bufs, d, blocks);
    forall b | 0 <= b < |d|
      ensures Applied(d, blocks, contents)[b] == View(bufs, d)[b]
    {
      AppliedAt(d, blocks, contents, b);
      InFirst(blocks, |blocks|, b);
      if b !in blocks {
        CurrentIsDisk(bufs, d, Elems(blocks), b);
      }
    }
  }

  /** No block of `absent` has a buffer. */
  ghost predicate NoneCached(bufs: seq<Buf>, absent: set<nat>) {
    forall i :: 0 <= i < |bufs| && bufs[i].dev == ROOTDEV ==> bufs[i].blockno !in absent
  }

  /**
   At recovery, an installed block's buffer is never free again: with one buffer left there
   is none for both blocks.
   */
  lemma NoRoomForHome(b0: seq<Buf>, b1: seq<Buf>, d: Disk, lb: nat, i: nat, todo: set<nat>, done: set<nat>, hb: nat)
    requires Stage(b0, d, todo, done, 0) && lb !in todo && lb !in done && hb in todo
    requires ReadInto(b0, b1, d, lb, i) && |done| + 1 == |b0| && NoneCached(b0, todo) && Unique(b1)
    ensures NoRoom(b1, hb)
  {
    forall m | 0 <= m < |b0| { KeptInUse(b0, todo, done, 0, b0[m]); }
    ReadKeepsPinned(b0, b1, d, lb, i, done);
    assert Holds(b1[i], lb);
    forall m | 0 <= m < |b1|
      ensures !Holds(b1[m], hb) && b1[m].refcnt != 0
    {
      NoSpareBuffer(b1, done + {lb}, m);
      if m != i {
        KeptInUse(b0, todo, done, 0, b0[m]);
      }
    }
  }

  /** The pool when recovery starts: nobody uses a buffer, and the valid ones equal the disk. */
  ghost predicate AtBoot(bufs: seq<Buf>, disk: Disk) {
    && (forall i :: 0 <= i < |bufs| ==> bufs[i].refcnt == 0 && !bufs[i].locked)
    && Coherent(bufs, disk, {})
  }

  lemma HeaderRead(b0: seq<Buf>, b1: seq<Buf>, d: Disk, hb: nat, i: nat)
    requires Stage(b0, d, {}, {}, 0) && ReadInto(b0, b1, d, hb, i)
    ensures b1[i].data == d[hb]
  {
    ReadStep(b0, b1, d, hb, i, {}, {}, 0, {});
  }

  /** Recovery starts with every committed block to install and none pinned. */
  lemma AllToDo(bufs: seq<Buf>, d: Disk, l: Layout, blocks: seq<nat>, b0: seq<Buf>)
    requires Stage(bufs, d, {}, {}, 0) && Fits(l, d) && Loggable(l, |d|, blocks)
    requires forall b :: Cached(bufs, b) ==> b == l.start || Cached(b0, b)
    ensures Stage(bufs, d, Elems(blocks), {}, 0)
    ensures NoneCached(b0, Elems(blocks)) ==> NoneCached(bufs, Elems(blocks))
    ensures l.start !in Elems(blocks) && |Elems(blocks)| == |blocks|
  {
    FirstSize(blocks, |blocks|);
    InFirst(blocks, |blocks|, l.start);
    assert InLog(l, l.start);
    if NoneCached(b0, Elems(blocks)) {
      forall i | 0 <= i < |bufs| && bufs[i].dev == ROOTDEV
        ensures bufs[i].blockno !in Elems(blocks)
      {
        var b := bufs[i].blockno;
        assert Holds(bufs[i], b) && Cached(bufs, b);
      }
    }
  }

  /** After recovery the accounting holds exactly when nothing was installed. */
  lemma Stuck(bufs: seq<Buf>, d: Disk, blocks: seq<nat>)
    requires Stage(bufs, d, {}, Elems(blocks), 0)
    ensures Accounts(bufs, d, Elems([])) <==> blocks == []
  {
    if blocks != [] {
      var b := blocks[0];
      InFirst(blocks, |blocks|, b);
      var i :| 0 <= i < |bufs| && Holds(bufs[i], b);
      assert bufs[i].refcnt == UINT_LIMIT - 1;
    }
  }

  /** log_write on the pool: the block of buffer `i` joins the transaction and gains a pin. */
  lemma PinFresh(b0: seq<Buf>, b1: seq<Buf>, d: Disk, blocks: seq<nat>, i: nat)
    requires Accounts(b0, d, Elems(blocks)) && Unique(b0)
    requires i < |b0| && b0[i].dev == ROOTDEV && b0[i].valid && b0[i].blockno !in blocks
    requires b1 == b0[i := b0[i].(refcnt := Inc(b0[i].refcnt))]
    ensures Accounts(b1, d, Elems(blocks + [b0[i].blockno]))
  {
    var b := b0[i].blockno;
    ElemsAppend(blocks, b);
    InFirst(blocks, |blocks|, b);
    assert forall m :: 0 <= m < |b0| && m != i ==> !Holds(b0[m], b);
    forall x | x in Elems(blocks) + {b}
      ensures Cached(b1, x)
    {
      if x == b {
        assert Holds(b1[i], x);
      } else {
        var m :| 0 <= m < |b0| && Holds(b0[m], x);
        assert Holds(b1[m], x);
      }
    }
  }

  /** The accounting of a running transaction. */
  ghost predicate Accounts(bufs: seq<Buf>, d: Disk, all: set<nat>) {
    Accounted(bufs, all, {}, 1) && Coherent(bufs, d, all) && AllCached(bufs, all)
  }

  lemma ReadKeepsAccounts(b0: seq<Buf>, b1: seq<Buf>, d: Disk, b: nat, i: nat, all: set<nat>)
    requires Accounts(b0, d, all) && Unique(b0) && Unique(b1) && ReadInto(b0, b1, d, b, i)
    requires Holds(b0[i], b) ==> !b0[i].locked
    ensures Accounts(b1, d, all)
    ensures View(b1, d) == View(b0, d)
  {
    assert !Holds(b0[i], b) ==> !b0[i].locked && (b0[i].dev == ROOTDEV ==> b0[i].blockno !in all);
    ReadStep(b0, b1, d, b, i, all, {}, 1, all);
    ReadKeepsPinned(b0, b1, d, b, i, all);
    ReadKeepsView(b0, b1, d, b, i, all);
  }

  lemma FillKeepsAccounts(b0: seq<Buf>, b1: seq<Buf>, d: Disk, i: nat, data: Block, all: set<nat>)
    requires Accounts(b0, d, all) && i < |b0| && b0[i].locked && b1 == b0[i := b0[i].(data := data)]
    ensures Accounts(b1, d, all)
  {
    forall x | x in all
      ensures Cached(b1, x)
    {
      var m :| 0 <= m < |b0| && Holds(b0[m], x);
      assert Holds(b1[m], x);
    }
  }

  lemma ReleaseKeepsAccounts(b0: seq<Buf>, b1: seq<Buf>, d: Disk, i: nat, all: set<nat>)
    requires Accounts(b0, d, all) && i < |b0| == |b1| && b0[i].locked
    requires b1 == b0[i := b0[i].(refcnt := Dec(b0[i].refcnt), locked := false, timestamp := b1[i].timestamp)]
    requires b0[i].dev == ROOTDEV && b0[i].blockno < |d|
    requires b0[i].blockno in all || b0[i].data == d[b0[i].blockno]
    ensures Accounts(b1, d, all)
  {
    DecWraps(Owed(b0[i], all, {}, 1));
    forall x | x in all
      ensures Cached(b1, x)
    {
      var m :| 0 <= m < |b0| && Holds(b0[m], x);
      assert Holds(b1[m], x);
    }
  }

  /**
   Crash atomicity of a commit as the file system sees it: whatever the crashes, the
   home blocks come back as they were on disk or as they read when commit began.
   */
  lemma CommitIsAtomic(l: Layout, bufs: seq<Buf>, d: Disk, blocks: seq<nat>, k: nat, ks: seq<nat>)
    requires HeaderOk(l, d) && Committed(l, d) == [] && Loggable(l, |d|, blocks)
    requires Accounts(bufs, d, Elems(blocks)) && Unlocked(bufs)
    requires k <= 2 * |blocks| + 2
    ensures var c := CommitState(l, d, blocks, Contents(bufs, d, blocks), k);
            && HeaderOk(l, c)
            && var e := Recovered(l, AfterCrashes(l, c, ks));
            && SameHome(l, e, if k <= |blocks| then d else View(bufs, d))
            && HeaderOk(l, e)
            && Committed(l, e) == []
  {
    CrashAtomicity(l, d, blocks, Contents(bufs, d, blocks), k, ks);
    AppliedIsView(l, bufs, d, blocks);
  }
}
