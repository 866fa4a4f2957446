/**
 The logging layer over the buffer cache: log_write, commit and recovery.

 The methods run one at a time; module LogAdmission covers the interleavings of
 begin_op, log_write and end_op. A method that panics in the kernel returns false.
 */
module LogManager {
  import opened Blocks
  import opened BufferCache
  import opened Common
  import opened RedoLog
  import opened Pins
  import opened LogRounds

  class Log {
    const cache: Cache
    const l: Layout
    var blocks: seq<nat>   // lh: its length is lh.n, its elements lh.block
    var outstanding: nat

    constructor (cache: Cache, l: Layout)
      ensures this.cache == cache && this.l == l && blocks == [] && outstanding == 0
    {
      this.cache := cache;
      this.l := l;
      blocks := [];
      outstanding := 0;
    }

    ghost predicate Shape()
      reads this, cache
    {
      && cache.Valid()
      && Fits(l, cache.disk)
      && Loggable(l, |cache.disk|, blocks)
    }

    /** What holds between calls: the log on disk is empty, and every count, buffer and pin is as it should be. */
    ghost predicate Valid()
      reads this, cache
    {
      && Shape()
      && HeaderOk(l, cache.disk)
      && Committed(l, cache.disk) == []
      && Accounts(cache.bufs, cache.disk, Elems(blocks))
    }

    /**
     The second half of a round of install_trans: copy buffer `i` over buffer `j`, write it,
     unpin it, release both.
     */
    method CopyBack(i: nat, j: nat)
      requires cache.Valid() && i < NBUF && j < NBUF && i != j
      requires cache.bufs[j].dev == ROOTDEV
      requires forall m :: 0 <= m < NBUF ==> (cache.bufs[m].locked <==> m == i || m == j)
      modifies cache
      ensures cache.Valid()
      ensures Copied(old(cache.bufs), cache.bufs, i, j, old(cache.bufs[i].data))
      ensures cache.disk == old(cache.disk)[old(cache.bufs[j].blockno) := old(cache.bufs[i].data)]
      ensures cache.history == old(cache.history) + [cache.disk]
    {
      cache.Fill(j, cache.bufs[i].data);
      cache.Bwrite(j);
      cache.Bunpin(j);
      cache.Brelse(i);
      cache.Brelse(j);
    }

    /** The two reads that start a round of write_log or install_trans: the log block, then the home block. */
    method ReadPair(lb: nat, hb: nat, ghost todo: set<nat>, ghost done: set<nat>, ghost pin: nat)
      returns (ok: bool, i: nat, j: nat)
      requires cache.Valid() && Stage(cache.bufs, cache.disk, todo, done, pin)
      requires lb < |cache.disk| && hb < |cache.disk| && lb !in todo && lb !in done && hb in todo
      modifies cache`bufs, cache`buckets
      ensures cache.Valid()
      ensures |todo| + |done| < NBUF ==> ok
      ensures pin == 1 && |todo| == NBUF ==> !ok
      ensures pin == 0 && |done| + 1 == NBUF && NoneCached(old(cache.bufs), todo) ==> !ok
      ensures ok && NoneCached(old(cache.bufs), todo) ==> NoneCached(cache.bufs, todo - {hb})
      ensures ok ==> Fetched(cache.bufs, cache.disk, lb, hb, i, j, todo, done, pin)
      ensures ok && pin == 1 && done == {} ==> KeepsPinned(old(cache.bufs), cache.bufs, todo)
    {
      hide Indexed, IsVictim, Accounted, Coherent, AllCached;
      ok, i, j := false, 0, 0;
      ghost var b0 := cache.bufs;
      if |todo| + |done| < NBUF { RoomForLog(b0, cache.disk, todo, done, pin, lb); }
      if pin == 1 && |todo| == NBUF { NoRoomForLog(b0, cache.disk, todo, done, lb); }
      var lbuf := cache.Bread(lb);
      if lbuf.None? {
        return;
      }
      ghost var b1 := cache.bufs;
      if |todo| + |done| < NBUF { RoomForHome(b0, b1, cache.disk, lb, lbuf.value, todo, done, pin, hb); }
      if pin == 0 && |done| + 1 == NBUF && NoneCached(b0, todo) {
        NoRoomForHome(b0, b1, cache.disk, lb, lbuf.value, todo, done, hb);
      }
      var dbuf := cache.Bread(hb);
      if dbuf.None? {
        return;
      }
      InstallReads(b0, b1, cache.bufs, cache.disk, lb, hb, lbuf.value, dbuf.value, todo, done, pin);
      if pin == 1 && done == {} {
        ReadsKeepPinned(b0, b1, cache.bufs, cache.disk, lb, hb, lbuf.value, dbuf.value, todo);
      }
      return true, lbuf.value, dbuf.value;
    }

    /** One round of write_log: home block `hb`, whose buffer holds `data`, goes to log block `lb`. */
    method WriteLogOne(lb: nat, hb: nat, ghost all: set<nat>, ghost data: Block) returns (ok: bool)
      requires cache.Valid() && Stage(cache.bufs, cache.disk, all, {}, 1)
      requires lb < |cache.disk| && hb < |cache.disk| && lb !in all && hb in all
      requires forall m :: 0 <= m < NBUF && Holds(cache.bufs[m], hb) ==> cache.bufs[m].data == data
      modifies cache
      ensures cache.Valid()
      ensures |all| < NBUF ==> ok
      ensures |all| == NBUF ==> !ok
      ensures ok ==> cache.disk == old(cache.disk)[lb := data]
      ensures ok ==> cache.history == old(cache.history) + [cache.disk]
      ensures ok ==> Stage(cache.bufs, cache.disk, all, {}, 1) && KeepsPinned(old(cache.bufs), cache.bufs, all)
      ensures !ok ==> cache.disk == old(cache.disk) && cache.history == old(cache.history)
    {
      hide Indexed, Stage, NoneCached;
      var i, j;
      ok, i, j := ReadPair(lb, hb, all, {}, 1);
      if ok {
        ghost var b2 := cache.bufs;
        assert b2[j].data == data by { HomeData(old(cache.bufs), b2, cache.disk, hb, j, all, data); }
        CopyOut(i, j);
        CopyOutRound(b2, cache.bufs, old(cache.disk), lb, hb, i, j, all);
      }
    }

    /** The second half of a round of write_log: copy buffer `j` over buffer `i`, write it, release both. */
    method CopyOut(i: nat, j: nat)
      requires cache.Valid() && i < NBUF && j < NBUF && i != j
      requires cache.bufs[i].dev == ROOTDEV
      requires forall m :: 0 <= m < NBUF ==> (cache.bufs[m].locked <==> m == i || m == j)
      modifies cache
      ensures cache.Valid()
      ensures CopiedOut(old(cache.bufs), cache.bufs, i, j)
      ensures cache.disk == old(cache.disk)[old(cache.bufs[i].blockno) := old(cache.bufs[j].data)]
      ensures cache.history == old(cache.history) + [cache.disk]
    {
      cache.Fill(i, cache.bufs[j].data);
      cache.Bwrite(i);
      cache.Brelse(j);
      cache.Brelse(i);
    }

    /** One round of install_trans. */
    method InstallOne(lb: nat, hb: nat, ghost todo: set<nat>, ghost done: set<nat>, ghost pin: nat) returns (ok: bool)
      requires cache.Valid() && Stage(cache.bufs, cache.disk, todo, done, pin)
      requires lb < |cache.disk| && hb < |cache.disk| && lb !in todo && lb !in done && hb in todo
      modifies cache
      ensures cache.Valid()
      ensures |todo| + |done| < NBUF ==> ok
      ensures pin == 0 && |done| + 1 == NBUF && NoneCached(old(cache.bufs), todo) ==> !ok
      ensures ok && NoneCached(old(cache.bufs), todo) ==> NoneCached(cache.bufs, todo - {hb})
      ensures ok ==> cache.disk == old(cache.disk)[hb := old(cache.disk)[lb]]
      ensures ok ==> cache.history == old(cache.history) + [cache.disk]
      ensures ok ==> Stage(cache.bufs, cache.disk, todo - {hb}, done + {hb}, pin)
      ensures !ok ==> cache.disk == old(cache.disk) && cache.history == old(cache.history)
    {
      hide Indexed, Stage;
      var i, j;
      ok, i, j := ReadPair(lb, hb, todo, done, pin);
      if ok {
        ghost var b2 := cache.bufs;
        CopyBack(i, j);
        InstallRound(b2, cache.bufs, old(cache.disk), lb, hb, i, j, todo, done, pin);
      }
    }

    method InstallTrans(ghost pin: nat) returns (ok: bool, ghost k: nat)
      requires Shape() && Stage(cache.bufs, cache.disk, Elems(blocks), {}, pin)
      modifies cache
      ensures Shape()
      ensures |blocks| < NBUF ==> ok
      ensures pin == 0 && NoneCached(old(cache.bufs), Elems(blocks)) && |blocks| == NBUF ==> !ok
      ensures k <= |blocks| && (ok ==> k == |blocks|)
      ensures cache.disk == Installed(l, old(cache.disk), blocks, k)
      ensures cache.history == old(cache.history) + InstallTrace(l, old(cache.disk), blocks, k)
      ensures ok ==> Stage(cache.bufs, cache.disk, {}, Elems(blocks), pin)
    {
      hide Stage, Unique, Indexed, Installed, NoneCached, InstallTrace, Loggable, Passed, First;
      ghost var d, todo, done := cache.disk, Elems(blocks), {};
      var lh := blocks;
      var tail := 0;
      ok, k := true, 0;
      InstalledNone(l, d, lh);
      LoggedOnce(l, |d|, lh);
      PassedNone(lh);
      while tail < |lh|
        invariant 0 <= tail <= |lh| && k == tail && ok
        invariant blocks == lh && Shape() && |cache.disk| == |d|
        invariant Passed(lh, tail, todo, done)
        invariant Stage(cache.bufs, cache.disk, todo, done, pin)
        invariant NoneCached(old(cache.bufs), Elems(lh)) ==> NoneCached(cache.bufs, todo)
        invariant pin == 0 && NoneCached(old(cache.bufs), Elems(lh)) && |lh| == NBUF ==> tail < NBUF
        invariant cache.disk == Installed(l, d, lh, tail)
        invariant cache.history == old(cache.history) + InstallTrace(l, d, lh, tail)
      {
        PassedNext(l, |d|, lh, tail, todo, done);
        ghost var c := cache.disk;
        ok := InstallOne(l.start + tail + 1, lh[tail], todo, done, pin);
        if !ok {
          return;
        }
        InstallTraceNext(l, d, lh, tail, c, cache.disk);
        todo, done := todo - {lh[tail]}, done + {lh[tail]};
        tail, k := tail + 1, k + 1;
      }
      PassedAll(lh, todo, done);
    }

    /** Copy every logged block from its buffer to the log. */
    method WriteLog(ghost contents: seq<Block>) returns (ok: bool, ghost k: nat)
      requires Shape() && Stage(cache.bufs, cache.disk, Elems(blocks), {}, 1)
      requires |contents| == |blocks| && Pending(cache.bufs, blocks, contents)
      modifies cache
      ensures Shape()
      ensures ok <==> |blocks| < NBUF
      ensures k <= |blocks| && (ok ==> k == |blocks|)
      ensures cache.disk == Logged(l, old(cache.disk), contents, k)
      ensures cache.history == old(cache.history) + CommitTrace(l, old(cache.disk), blocks, contents, k)
      ensures ok ==> Stage(cache.bufs, cache.disk, Elems(blocks), {}, 1) && Pending(cache.bufs, blocks, contents)
    {
      hide Stage, Unique, Indexed, KeepsPinned, Logged, AllCached;
      ghost var d, all := cache.disk, Elems(blocks);
      var lh := blocks;
      var tail := 0;
      ok, k := true, 0;
      FirstSize(lh, |lh|);
      LoggedNone(l, d, contents);
      while tail < |lh|
        invariant 0 <= tail <= |lh| && k == tail && ok
        invariant tail > 0 ==> |lh| < NBUF
        invariant blocks == lh && Shape() && |cache.disk| == |d|
        invariant Stage(cache.bufs, cache.disk, all, {}, 1) && Pending(cache.bufs, lh, contents)
        invariant cache.disk == Logged(l, d, contents, tail)
        invariant cache.history == old(cache.history) + CommitTrace(l, d, lh, contents, tail)
      {
        NextBlock(l, |d|, lh, tail);
        ghost var b0, c := cache.bufs, cache.disk;
        ok := WriteLogOne(l.start + tail + 1, lh[tail], all, contents[tail]);
        if !ok {
          return;
        }
        LoggedNext(l, d, contents, tail, c, cache.disk);
        CommitTraceNext(l, d, lh, contents, tail);
        PendingKept(b0, cache.bufs, cache.disk, lh, contents);
        tail, k := tail + 1, k + 1;
      }
    }

    /** The loop of write_head: the header block with the current count and block numbers. */
    method FillHeader(h: Block) returns (r: Block)
      requires |blocks| <= LOGSIZE && forall i :: 0 <= i < |blocks| ==> blocks[i] < UINT_LIMIT
      ensures r == EncodeHeader(h, blocks)
    {
      r := h[0 := |blocks|];
      var i := 0;
      while i < |blocks|
        invariant 0 <= i <= |blocks|
        invariant r == [|blocks|] + blocks[..i] + h[1 + i..]
      {
        r := r[i + 1 := blocks[i]];
        i := i + 1;
      }
    }

    /** Write the in-memory header to disk. */
    method WriteHead(ghost todo: set<nat>, ghost done: set<nat>, ghost pin: nat) returns (ok: bool)
      requires Shape() && Stage(cache.bufs, cache.disk, todo, done, pin)
      requires l.start !in todo && l.start !in done
      modifies cache
      ensures Shape()
      ensures |Kept(todo, done, pin)| < NBUF ==> ok
      ensures ok ==> cache.disk == WithHeader(l, old(cache.disk), blocks)
      ensures ok ==> cache.history == old(cache.history) + [cache.disk]
      ensures ok ==> Stage(cache.bufs, cache.disk, todo, done, pin)
      ensures !ok ==> cache.disk == old(cache.disk) && cache.history == old(cache.history)
    {
      hide Indexed;
      ghost var b0, d := cache.bufs, cache.disk;
      if |Kept(todo, done, pin)| < NBUF { RoomForLog(b0, d, todo, done, pin, l.start); }
      var buf := cache.Bread(l.start);
      if buf.None? {
        return false;
      }
      ghost var b1 := cache.bufs;
      var h := FillHeader(cache.bufs[buf.value].data);
      cache.Fill(buf.value, h);
      cache.Bwrite(buf.value);
      cache.Brelse(buf.value);
      HeadRound(b0, b1, cache.bufs, d, l.start, buf.value, h, todo, done, pin);
      return true;
    }

    /** The rest of a commit, once the header write has made the transaction durable: install and clear. */
    method FinishCommit(ghost d: Disk, ghost contents: seq<Block>, ghost h: seq<Disk>)
      requires Shape() && |blocks| < NBUF && Stage(cache.bufs, cache.disk, Elems(blocks), {}, 1)
      requires Fits(l, d) && |d| == |cache.disk| && |contents| == |blocks|
      requires cache.disk == CommitState(l, d, blocks, contents, |blocks| + 1)
      requires cache.history == h + CommitTrace(l, d, blocks, contents, |blocks| + 1)
      modifies this`blocks, cache
      ensures blocks == [] && Valid() && Unlocked(cache.bufs)
      ensures cache.history == h + CommitTrace(l, d, old(blocks), contents, 2 * |old(blocks)| + 2)
      ensures SameHome(l, cache.disk, Applied(d, old(blocks), contents))
    {
      hide Stage, Unique, Indexed, Installed, Logged, Accounts, Unlocked, CommitState, CommitTrace, InstallTrace,
        SameHome, Applied, Loggable,
        WithHeader, HeaderOk, Committed, First;
      ghost var lh, c := blocks, cache.disk;
      HeaderIsNotLogged(l, |d|, lh);
      var ok;
      ghost var k;
      ok, k := InstallTrans(1);
      CommitTraceInstalls(l, d, lh, contents, c, k);
      CommitStateLast(l, d, lh, contents, c);
      ghost var t := CommitTrace(l, d, lh, contents, |lh| + 1 + k);
      assert cache.history == h + t;
      blocks := [];
      ok := WriteHead({}, Elems(lh), 1);
      CommitTraceNext(l, d, lh, contents, |lh| + 1 + k);
      assert cache.history == h + (t + [cache.disk]);
      CommitEnd(l, d, lh, contents);
      StageAtEnd(cache.bufs, cache.disk, Elems(lh));
    }

    /** Copy the logged blocks to the log, commit, install, clear. */
    method Commit() returns (ok: bool, ghost k: nat)
      requires Valid() && Unlocked(cache.bufs)
      modifies this`blocks, cache
      ensures ok <==> |old(blocks)| < NBUF
      ensures k <= 2 * |old(blocks)| + 2 && (ok ==> k == if old(blocks) == [] then 0 else 2 * |old(blocks)| + 2)
      ensures cache.history == old(cache.history)
        + CommitTrace(l, old(cache.disk), old(blocks), old(Contents(cache.bufs, cache.disk, blocks)), k)
      ensures !ok ==> k <= |old(blocks)|
      ensures ok ==> Valid() && Unlocked(cache.bufs) && blocks == []
      ensures ok ==> SameHome(l, cache.disk, old(View(cache.bufs, cache.disk)))
    {
      hide Stage, Unique, Indexed, Installed, Logged, Accounts, Pending, Unlocked;
      ghost var d, lh, contents := cache.disk, blocks, Contents(cache.bufs, cache.disk, blocks);
      StageAtStart(cache.bufs, d, l, lh);
      AppliedIsView(l, cache.bufs, d, lh);
      if |blocks| == 0 {
        return true, 0;
      }
      ok, k := WriteLog(contents);
      if !ok {
        return;
      }
      ok := WriteHead(Elems(lh), {}, 1);
      CommitTraceNext(l, d, lh, contents, |lh|);
      InstalledNone(l, cache.disk, lh);
      FinishCommit(d, contents, old(cache.history));
      k := 2 * |lh| + 2;
    }

    // ---- Recovery ----

    /** Read the on-disk header into memory. */
    method ReadHead() returns (ok: bool)
      requires cache.Valid() && HeaderOk(l, cache.disk) && AtBoot(cache.bufs, cache.disk)
      modifies this`blocks, cache`bufs, cache`buckets
      ensures ok
      ensures cache.Valid() && blocks == Committed(l, cache.disk)
      ensures Stage(cache.bufs, cache.disk, {}, {}, 0)
      ensures forall b :: Cached(cache.bufs, b) ==> b == l.start || Cached(old(cache.bufs), b)
    {
      hide Indexed, IsVictim;
      ghost var b0 := cache.bufs;
      assert Stage(b0, cache.disk, {}, {}, 0);
      RoomForLog(b0, cache.disk, {}, {}, 0, l.start);
      var buf := cache.Bread(l.start);
      ghost var b1 := cache.bufs;
      var h := cache.bufs[buf.value].data;
      HeaderRead(b0, b1, cache.disk, l.start, buf.value);
      blocks := [];
      var i := 0;
      while i < h[0]
        invariant 0 <= i <= h[0]
        invariant blocks == h[1..1 + i]
        invariant cache.bufs == b1
        invariant cache.Valid()
      {
        blocks := blocks + [h[i + 1]];
        i := i + 1;
      }
      cache.Brelse(buf.value);
      HeadRound(b0, b1, cache.bufs, cache.disk, l.start, buf.value, h, {}, {}, 0);
      assert cache.disk[l.start := h] == cache.disk;
      forall b | Cached(cache.bufs, b)
        ensures b == l.start || Cached(b0, b)
      {
        var m :| 0 <= m < NBUF && Holds(cache.bufs[m], b);
        assert m != buf.value ==> Holds(b0[m], b);
      }
      return true;
    }

    /**
     Recovery issues the writes of `RecoveryTrace` and leaves the recovered disk. It
     unpins blocks nobody pinned: each home block it installed keeps a buffer whose
     count has wrapped below zero, so the accounting that every later operation
     relies on holds if and only if there was nothing to recover.
     */
    method RecoverFromLog() returns (ok: bool, ghost k: nat)
      requires cache.Valid() && HeaderOk(l, cache.disk) && AtBoot(cache.bufs, cache.disk)
      modifies this`blocks, cache
      ensures |Committed(l, old(cache.disk))| < NBUF ==> ok
      ensures NoneCached(old(cache.bufs), Elems(Committed(l, old(cache.disk)))) ==>
        (ok <==> |Committed(l, old(cache.disk))| < NBUF)
      ensures k <= |Committed(l, old(cache.disk))| + 1
      ensures cache.history == old(cache.history) + RecoveryTrace(l, old(cache.disk), k)
      ensures ok ==> Shape() && cache.disk == Recovered(l, old(cache.disk)) && blocks == []
      ensures ok ==> Stage(cache.bufs, cache.disk, {}, Elems(Committed(l, old(cache.disk))), 0)
      ensures ok ==> (Valid() <==> Committed(l, old(cache.disk)) == [])
    {
      hide Stage, Unique, Indexed, Installed, NoneCached, Coherent, Accounts;
      ghost var d, lh := cache.disk, Committed(l, cache.disk);
      ok := ReadHead();
      AllToDo(cache.bufs, d, l, lh, old(cache.bufs));
      ok, k := InstallTrans(0);
      RecoveryTraceInstalls(l, d, k);
      if !ok {
        return;
      }
      blocks := [];
      ok := WriteHead({}, Elems(lh), 0);
      if ok {
        assert cache.history == old(cache.history) + (RecoveryTrace(l, d, k) + [Recovered(l, d)]);
        k := k + 1;
        RestartCleared(l, d);
        Stuck(cache.bufs, cache.disk, lh);
      }
    }

    // ---- Clients ----

    /** Record that buffer `i`, which the caller holds and has changed, belongs to the transaction. */
    method LogWrite(i: nat) returns (ok: bool)
      requires Valid() && i < NBUF
      requires cache.bufs[i].dev == ROOTDEV && cache.bufs[i].locked && cache.bufs[i].valid
      requires !InLog(l, cache.bufs[i].blockno)
      modifies this`blocks, cache`bufs
      ensures Valid()
      ensures ok <==> |old(blocks)| < LOGSIZE && |old(blocks)| < l.size - 1 && outstanding >= 1
      ensures !ok ==> blocks == old(blocks)
      ensures ok ==>
        blocks == if cache.bufs[i].blockno in old(blocks) then old(blocks) else old(blocks) + [cache.bufs[i].blockno]
      ensures |cache.bufs| == NBUF
      ensures cache.bufs == old(cache.bufs)[i := old(cache.bufs[i]).(refcnt := cache.bufs[i].refcnt)]
    {
      hide Indexed, Accounts;
      if |blocks| >= LOGSIZE || |blocks| >= l.size - 1 {
        return false;
      }
      if outstanding < 1 {
        return false;
      }
      var b := cache.bufs[i].blockno;
      var k := 0;
      while k < |blocks|
        invariant 0 <= k <= |blocks| && b !in blocks[..k]
        invariant Valid() && blocks == old(blocks) && cache.bufs == old(cache.bufs)
      {
        if blocks[k] == b {  // absorption
          return true;
        }
        k := k + 1;
      }
      ghost var b0 := cache.bufs;
      cache.Bpin(i);
      PinFresh(b0, cache.bufs, cache.disk, blocks, i);
      blocks := blocks + [b];
      return true;
    }

    /** bread: the caller now holds a buffer with the block's current contents. */
    method Read(b: nat) returns (r: Option<nat>)
      requires Valid() && b < |cache.disk| && !InLog(l, b)
      requires forall i :: 0 <= i < NBUF && Holds(cache.bufs[i], b) ==> !cache.bufs[i].locked
      modifies cache`bufs, cache`buckets
      ensures Valid()
      ensures r.None? <==> NoRoom(old(cache.bufs), b)
      ensures r.None? ==> cache.bufs == old(cache.bufs)
      ensures r.Some? ==> ReadInto(old(cache.bufs), cache.bufs, cache.disk, b, r.value)
      ensures View(cache.bufs, cache.disk) == old(View(cache.bufs, cache.disk))
    {
      hide Indexed, Accounts;
      ghost var b0 := cache.bufs;
      r := cache.Bread(b);
      if r.Some? {
        ReadKeepsAccounts(b0, cache.bufs, cache.disk, b, r.value, Elems(blocks));
      }
    }

    /** brelse: only for a buffer that equals the disk or that log_write has recorded. */
    method Release(i: nat)
      requires Valid() && i < NBUF && cache.bufs[i].dev == ROOTDEV && cache.bufs[i].locked && cache.bufs[i].valid
      requires cache.bufs[i].blockno in blocks || cache.bufs[i].data == cache.disk[cache.bufs[i].blockno]
      modifies cache`bufs
      ensures Valid()
      ensures |cache.bufs| == NBUF && !cache.bufs[i].locked
      ensures forall m :: 0 <= m < NBUF && m != i ==> cache.bufs[m] == old(cache.bufs)[m]
      ensures View(cache.bufs, cache.disk) == old(View(cache.bufs, cache.disk))
    {
      hide Indexed, Accounts;
      ghost var b0 := cache.bufs;
      InFirst(blocks, |blocks|, b0[i].blockno);
      cache.Brelse(i);
      ReleaseKeepsAccounts(b0, cache.bufs, cache.disk, i, Elems(blocks));
      SameDataSameView(b0, cache.bufs, cache.disk);
    }

    /** The way the file system changes a block: bread, modify, log_write, brelse. */
    method WriteBlock(b: nat, change: Block -> Block) returns (ok: bool)
      requires Valid() && Unlocked(cache.bufs) && b < |cache.disk| && !InLog(l, b)
      modifies this`blocks, cache`bufs, cache`buckets
      ensures ok <==>
        !NoRoom(old(cache.bufs), b) && |old(blocks)| < LOGSIZE && |old(blocks)| < l.size - 1 && outstanding >= 1
      ensures ok ==> Valid() && Unlocked(cache.bufs)
      ensures ok ==>
        var v := old(View(cache.bufs, cache.disk)); View(cache.bufs, cache.disk) == v[b := change(v[b])]
      ensures ok ==> blocks == if b in old(blocks) then old(blocks) else old(blocks) + [b]
    {
      hide Indexed, Accounts, Loggable, IsVictim;
      var r := Read(b);
      if r.None? {
        return false;
      }
      ghost var b1 := cache.bufs;
      var data := change(cache.bufs[r.value].data);
      cache.Fill(r.value, data);
      ghost var b2 := cache.bufs;
      FillKeepsAccounts(b1, b2, cache.disk, r.value, data, Elems(blocks));
      FillView(b1, b2, cache.disk, r.value, data);
      CurrentIs(b1, cache.disk, b, r.value);
      ok := LogWrite(r.value);
      if !ok {
        return;
      }
      SameDataSameView(b2, cache.bufs, cache.disk);
      Release(r.value);
    }
  }
}
