/**
 Where the log fails: runs from boot that reach the panic of a full commit and the
 wrapped counts of recovery, and what those counts lead to.
 */
module LogCases {
  import opened Blocks
  import opened BufferCache
  import opened LogManager
  import opened LogRounds
  import opened Pins
  import opened RedoLog
  import opened Transaction

  // ---- A commit of thirty blocks ----

  /** A header that counts no blocks is an empty log. */
  lemma ZeroHeader(l: Layout, d: Disk)
    requires Fits(l, d) && d[l.start][0] == 0
    ensures HeaderOk(l, d) && Committed(l, d) == []
  {}

  /** The pool binit leaves is in order for recovery. */
  lemma BootPool(bufs: seq<Buf>, d: Disk, s: set<nat>)
    requires forall i :: 0 <= i < |bufs| ==> bufs[i].dev != ROOTDEV && bufs[i].refcnt == 0 && !bufs[i].locked
    ensures AtBoot(bufs, d) && NoneCached(bufs, s)
  {}

  /** From boot, one operation changes thirty blocks; every write is accepted, and commit panics. */
  method ThirtyBlocks() returns (ok: bool, logged: nat)
    ensures !ok && logged == NBUF
  {
    hide Accounts, Loggable, HeaderOk, Committed, Stage, AtBoot, NoneCached;
    var l := Layout(2, 40);
    var zero: Block := ZERO_BLOCK;
    var d: Disk := seq(100, _ => zero);
    ZeroHeader(l, d);
    var cache := new Cache(d);
    BootPool(cache.bufs, d, {});
    var log := new Log(cache, l);
    ghost var k;
    ok, k := log.RecoverFromLog();
    StageUnlocked(cache.bufs, cache.disk, Elems([]));
    assert |cache.disk| == 100;
    log.outstanding := 1;
    var i := 0;
    while i < NBUF
      invariant 0 <= i <= NBUF
      invariant log.Valid() && Unlocked(cache.bufs) && log.outstanding == 1 && log.cache == cache && log.l == l
      invariant |cache.disk| == 100
      invariant |log.blocks| == i && forall b :: b in log.blocks ==> b < 50 + i
    {
      RoomForOneMore(l, cache.bufs, cache.disk, log.blocks, 50 + i);
      ok := log.WriteBlock(50 + i, _ => zero);
      i := i + 1;
    }
    logged := |log.blocks|;
    ok, k := log.Commit();
  }

  lemma StageUnlocked(bufs: seq<Buf>, d: Disk, done: set<nat>)
    requires Stage(bufs, d, {}, done, 0)
    ensures Unlocked(bufs)
  {}

  // ---- Recovery and the update it loses ----

  /**
   The next update of a block: read, changed, pinned by log_write, released. After
   recovery its buffer is left with a count of zero, free to be recycled although it is
   logged and dirty, exactly if the block is one that was recovered.
   */
  lemma RecoveredCountIsZero(b0: seq<Buf>, b1: seq<Buf>, b2: seq<Buf>, d: Disk, done: set<nat>, b: nat, i: nat,
                             data: Block, t: nat)
    requires Stage(b0, d, {}, done, 0) && Unique(b0) && ReadInto(b0, b1, d, b, i)
    requires b2 == b1[i := b1[i].(data := data, refcnt := Dec(Inc(b1[i].refcnt)), locked := false, timestamp := t)]
    ensures b2[i].refcnt == 0 <==> b in done
  {
    if b in done {
      var j :| 0 <= j < |b0| && Holds(b0[j], b);
      assert j == i;
    }
  }

  /** A buffer that is recycled takes its update with it. */
  lemma RecycledIsLost(before: seq<Buf>, after: seq<Buf>, d: Disk, b: nat, c: nat, i: nat)
    requires Unique(before) && b < |d| && i < |before| && Holds(before[i], b) && ReadInto(before, after, d, c, i)
    requires c != b
    ensures !Cached(after, b) && Current(after, d, b) == d[b]
  {
    assert forall j :: 0 <= j < |before| && j != i ==> !Holds(before[j], b);
  }

  /** A block with a count keeps its update through every read. */
  lemma CountedIsKept(before: seq<Buf>, after: seq<Buf>, d: Disk, b: nat, c: nat, i: nat, j: nat)
    requires Unique(before) && Unique(after) && b < |d| && i < |before| && Holds(before[i], b) && before[i].valid
    requires before[i].refcnt != 0 && ReadInto(before, after, d, c, j)
    ensures Current(after, d, b) == before[i].data
  {
    CurrentIs(after, d, b, i);
  }

  /** Buffers other than `i` that the reads have taken are held; the rest are unused. */
  ghost predicate Crowded(bufs: seq<Buf>, used: set<nat>, i: nat, first: nat, next: nat) {
    && |bufs| == NBUF && i < NBUF && i !in used
    && (forall j :: j in used ==>
         0 <= j < NBUF && bufs[j].refcnt >= 1 && bufs[j].dev == ROOTDEV && first <= bufs[j].blockno < next)
    && (forall j :: 0 <= j < NBUF && j != i && j !in used ==> bufs[j].refcnt == 0 && !bufs[j].locked)
  }

  /**
   From any state in which a changed buffer has count zero, reads of other blocks bring
   back the old contents: with 29 other buffers to take, one of thirty reads takes it.
   */
  method LoseUpdate(cache: Cache, b: nat, i: nat, first: nat)
    requires cache.Valid() && b < first && first + NBUF <= |cache.disk|
    requires Crowded(cache.bufs, {}, i, first, first)
    requires Holds(cache.bufs[i], b) && cache.bufs[i].refcnt == 0 && !cache.bufs[i].locked
    modifies cache`bufs, cache`buckets
    ensures !Cached(cache.bufs, b) && Current(cache.bufs, cache.disk, b) == cache.disk[b]
  {
    hide Indexed, IsVictim, Current;
    ghost var used: set<nat> := {};
    var c := first;
    while true
      invariant first <= c && |used| == c - first
      invariant cache.Valid() && Crowded(cache.bufs, used, i, first, c)
      invariant Holds(cache.bufs[i], b) && cache.bufs[i].refcnt == 0 && !cache.bufs[i].locked
      decreases NBUF - |used|
    {
      FewerThanAll(used, i);
      ghost var before := cache.bufs;
      var r := cache.Bread(c);
      if r.value == i {
        RecycledIsLost(before, cache.bufs, cache.disk, b, c, i);
        return;
      }
      CrowdsOn(before, cache.bufs, cache.disk, used, i, first, c, r.value);
      used := used + {r.value};
      c := c + 1;
    }
  }

  lemma CrowdsOn(before: seq<Buf>, after: seq<Buf>, d: Disk, used: set<nat>, i: nat, first: nat, c: nat, r: nat)
    requires Crowded(before, used, i, first, c) && first <= c && ReadInto(before, after, d, c, r) && r != i
    ensures r !in used && Crowded(after, used + {r}, i, first, c + 1)
  {
    hide IsVictim;
    VictimUnused(before, after, d, c, r);
  }

  lemma VictimUnused(before: seq<Buf>, after: seq<Buf>, d: Disk, c: nat, r: nat)
    requires ReadInto(before, after, d, c, r)
    ensures !Holds(before[r], c) ==> before[r].refcnt == 0
  {}

  lemma FewerThanAll(used: set<nat>, i: nat)
    requires i < NBUF && i !in used && forall j :: j in used ==> 0 <= j < NBUF
    ensures |used| < NBUF
  {
    Bounded(used + {i}, NBUF);
  }

  lemma {:induction false} Bounded(s: set<nat>, n: nat)
    requires forall j :: j in s ==> j < n
    ensures |s| <= n
  {
    if n > 0 {
      Bounded(s - {n - 1}, n - 1);
    }
  }

  lemma HeaderOfOne(l: Layout, d: Disk, b: nat)
    requires Fits(l, d) && l.size >= 2 && b < |d| && !InLog(l, b) && d[l.start][0] == 1 && d[l.start][1] == b
    ensures HeaderOk(l, d) && Committed(l, d) == [b]
  {}

  /** From boot with one committed block on the disk, recovery leaves accounts that do not balance. */
  method RecoverOne() returns (log: Log)
    ensures !log.Valid() && log.blocks == [] && log.cache.Valid() && |log.cache.disk| == 100
    ensures Stage(log.cache.bufs, log.cache.disk, {}, {60}, 0)
    ensures fresh(log) && fresh(log.cache)
  {
    hide Accounts, Loggable, HeaderOk, Committed, Stage, AtBoot, NoneCached;
    var l := Layout(2, 40);
    var zero: Block := ZERO_BLOCK;
    var header: Block := [1, 60] + zero[2..];
    var d: Disk := seq(100, i => if i == 2 then header else zero);
    HeaderOfOne(l, d, 60);
    var cache := new Cache(d);
    BootPool(cache.bufs, d, {60});
    log := new Log(cache, l);
    ghost var k;
    var ok;
    ok, k := log.RecoverFromLog();
    ElemsOfOne(60);
  }

  lemma ElemsOfOne(b: nat)
    ensures Elems([b]) == {b}
  {
    InFirst([b], 1, b);
    forall x
      ensures x in Elems([b]) <==> x == b
    {
      InFirst([b], 1, x);
    }
  }

  /**
   The consequence: whatever is then written to that block and logged is gone after
   thirty reads of other blocks, before any commit could copy it to the log.
   */
  method RecoveredUpdateLost(data: Block) returns (log: Log)
    ensures log.blocks == [60] && 60 < |log.cache.disk|
    ensures Current(log.cache.bufs, log.cache.disk, 60) == log.cache.disk[60]
    ensures !Cached(log.cache.bufs, 60)
  {
    hide Accounts, Current, Indexed, IsVictim;
    log := RecoverOne();
    var cache := log.cache;
    ghost var b0, d := cache.bufs, cache.disk;
    var r := cache.Bread(60);
    ghost var b1 := cache.bufs;
    cache.Fill(r.value, data);
    log.blocks := [60];
    cache.Bpin(r.value);
    cache.Brelse(r.value);
    RecoveredCountIsZero(b0, b1, cache.bufs, d, {60}, 60, r.value, data, cache.bufs[r.value].timestamp);
    AloneInUse(b0, b1, d, 60, r.value);
    LoseUpdate(cache, 60, r.value, 61);
  }

  lemma AloneInUse(b0: seq<Buf>, b1: seq<Buf>, d: Disk, b: nat, i: nat)
    requires Stage(b0, d, {}, {b}, 0) && Unique(b0) && ReadInto(b0, b1, d, b, i)
    ensures forall j :: 0 <= j < |b0| && j != i ==> b1[j].refcnt == 0 && !b1[j].locked
  {
    var m :| 0 <= m < |b0| && Holds(b0[m], b);
    assert m == i;
  }
}
