/**
 A whole transaction: any blocks changed through the cache and the log, then
 committed, with a crash anywhere on the way.
 */
module Transaction {
  import opened Blocks
  import opened BufferCache
  import opened Common
  import opened LogManager
  import opened LogRounds
  import opened Pins
  import opened RedoLog

  /** One bread, modify, log_write, brelse: what becomes of the contents of block `b`. */
  datatype Update = Update(b: nat, change: Block -> Block)

  /** The blocks with the updates applied in order. */
  ghost function Updated(v: Disk, us: seq<Update>): (r: Disk)
    requires forall i :: 0 <= i < |us| ==> us[i].b < |v|
    ensures |r| == |v|
  {
    if us == [] then v
    else
      var r := Updated(v, us[..|us| - 1]);
      r[us[|us| - 1].b := us[|us| - 1].change(r[us[|us| - 1].b])]
  }

  /** The blocks a list of updates changes. */
  ghost function Targets(us: seq<Update>): set<nat> {
    set i | 0 <= i < |us| :: us[i].b
  }

  /** From disk `e`, and however recovery is interrupted, the home blocks come back as in `v`. */
  ghost predicate ComesBackAs(l: Layout, e: Disk, v: Disk) {
    HeaderOk(l, e) && forall ks: seq<nat> :: SameHome(l, Recovered(l, AfterCrashes(l, e, ks)), v)
  }

  /** Every disk that commit passes through comes back as the old blocks or as the new ones. */
  lemma TraceIsAtomic(l: Layout, bufs: seq<Buf>, d: Disk, blocks: seq<nat>, k: nat)
    requires HeaderOk(l, d) && Committed(l, d) == [] && Loggable(l, |d|, blocks)
    requires Accounts(bufs, d, Elems(blocks)) && Unlocked(bufs)
    requires k <= 2 * |blocks| + 2
    ensures var c := CommitState(l, d, blocks, Contents(bufs, d, blocks), k);
      ComesBackAs(l, c, if k <= |blocks| then d else View(bufs, d))
  {
    hide Accounts, Unlocked, SameHome, CommitState, Recovered, AfterCrashes;
    CommitIsAtomic(l, bufs, d, blocks, k, []);
    forall ks: seq<nat>
      ensures SameHome(l, Recovered(l, AfterCrashes(l, CommitState(l, d, blocks, Contents(bufs, d, blocks), k), ks)),
                       if k <= |blocks| then d else View(bufs, d))
    {
      CommitIsAtomic(l, bufs, d, blocks, k, ks);
    }
  }

  /** While fewer blocks are logged than there are buffers, there is a buffer for one more. */
  lemma RoomForOneMore(l: Layout, bufs: seq<Buf>, d: Disk, blocks: seq<nat>, b: nat)
    requires Accounts(bufs, d, Elems(blocks)) && Unlocked(bufs) && Unique(bufs) && |bufs| == NBUF
    requires HeaderOk(l, d) && Loggable(l, |d|, blocks) && |blocks| < NBUF
    ensures !NoRoom(bufs, b)
  {
    StageAtStart(bufs, d, l, blocks);
    FirstSize(blocks, |blocks|);
    RoomForLog(bufs, d, Elems(blocks), {}, 1, b);
  }

  /**
   The log and the cache have room for the updates. Where a block is changed again,
   log_write wants one log block to spare.
   */
  ghost predicate RoomFor(us: seq<Update>, size: nat) {
    |Targets(us)| < NBUF && (|us| < size || |Targets(us)| + 1 < size)
  }

  lemma NextTarget(us: seq<Update>, i: nat)
    requires i < |us|
    ensures Targets(us[..i + 1]) == Targets(us[..i]) + {us[i].b}
  {
    forall b
      ensures b in Targets(us[..i + 1]) <==> b in Targets(us[..i]) + {us[i].b}
    {
      if b in Targets(us[..i]) {
        var k :| 0 <= k < i && us[..i][k].b == b;
        assert us[..i + 1][k].b == b;
      }
      assert us[..i + 1][i].b == us[i].b;
    }
  }

  /** The log holds only blocks of the updates made so far, so there is room for the next. */
  lemma FewLogged(us: seq<Update>, i: nat, blocks: seq<nat>)
    requires i <= |us| && Distinct(blocks) && forall b :: b in blocks ==> b in Targets(us[..i])
    ensures |blocks| <= |Targets(us)|
  {
    FirstSize(blocks, |blocks|);
    forall b | b in Elems(blocks)
      ensures b in Targets(us)
    {
      InFirst(blocks, |blocks|, b);
      assert b in blocks;
      var k :| 0 <= k < |us[..i]| && us[..i][k].b == b;
      assert us[k].b == b;
    }
    SubsetSize(Elems(blocks), Targets(us));
  }

  /** The updates, one after the other, through the cache and the log; nothing is written to disk. */
  method ApplyAll(log: Log, us: seq<Update>) returns (ok: bool)
    requires log.Valid() && log.blocks == [] && Unlocked(log.cache.bufs)
    requires forall i :: 0 <= i < |us| ==> us[i].b < |log.cache.disk| && !InLog(log.l, us[i].b)
    modifies log`blocks, log.cache`bufs, log.cache`buckets
    ensures RoomFor(us, log.l.size) && log.outstanding >= 1 ==> ok
    ensures ok ==> log.Valid() && Unlocked(log.cache.bufs) && |log.blocks| <= |Targets(us)|
    ensures ok ==>
      View(log.cache.bufs, log.cache.disk) == Updated(old(View(log.cache.bufs, log.cache.disk)), us)
  {
    hide Accounts, Unlocked, SameHome, HeaderOk, Committed, View, Unique, Indexed, NoRoom, Targets;
    ghost var v := View(log.cache.bufs, log.cache.disk);
    var i := 0;
    while i < |us|
      invariant 0 <= i <= |us|
      invariant log.Valid() && Unlocked(log.cache.bufs)
      invariant View(log.cache.bufs, log.cache.disk) == Updated(v, us[..i])
      invariant |log.blocks| <= i && forall b :: b in log.blocks ==> b in Targets(us[..i])
    {
      FewLogged(us, i, log.blocks);
      if |Targets(us)| < NBUF {
        RoomForOneMore(log.l, log.cache.bufs, log.cache.disk, log.blocks, us[i].b);
      }
      assert us[..i + 1][..i] == us[..i];
      NextTarget(us, i);
      ok := log.WriteBlock(us[i].b, us[i].change);
      if !ok {
        return;
      }
      i := i + 1;
    }
    FewLogged(us, i, log.blocks);
    assert us[..i] == us;
    return true;
  }

  /**
   Either all updates or none survive: a crash at any point of the transaction,
   followed by any interrupted recoveries, leaves the blocks as before it or with all
   its updates, and as before it if the kernel panics. If nothing panics,
     the updates are on disk and the log is empty; if they
   change fewer blocks than there are buffers and log blocks, and an operation has begun,
   nothing panics.
   */
  method Perform(log: Log, us: seq<Update>) returns (ok: bool)
    requires log.Valid() && log.blocks == [] && Unlocked(log.cache.bufs)
    requires forall i :: 0 <= i < |us| ==> us[i].b < |log.cache.disk| && !InLog(log.l, us[i].b)
    modifies log, log.cache
    ensures old(log.cache.history) <= log.cache.history
    ensures forall j :: |old(log.cache.history)| <= j < |log.cache.history| ==>
      || ComesBackAs(log.l, log.cache.history[j], old(log.cache.disk))
      || ComesBackAs(log.l, log.cache.history[j], Updated(old(View(log.cache.bufs, log.cache.disk)), us))
    ensures !ok ==> forall j :: |old(log.cache.history)| <= j < |log.cache.history| ==>
      ComesBackAs(log.l, log.cache.history[j], old(log.cache.disk))
    ensures RoomFor(us, log.l.size) && old(log.outstanding) >= 1 ==> ok
    ensures ok ==> SameHome(log.l, log.cache.disk, Updated(old(View(log.cache.bufs, log.cache.disk)), us))
    ensures ok ==>
      log.Valid() && log.blocks == [] && Unlocked(log.cache.bufs) && log.outstanding == old(log.outstanding)
  {
    hide Accounts, Unlocked, SameHome, CommitState, ComesBackAs, HeaderOk, Committed, View, Targets, Loggable;
    ghost var v := View(log.cache.bufs, log.cache.disk);
    ok := ApplyAll(log, us);
    if !ok {
      return;
    }
    ghost var l, bufs, d, blocks := log.l, log.cache.bufs, log.cache.disk, log.blocks;
    ghost var k;
    ok, k := log.Commit();
    forall j | |old(log.cache.history)| <= j < |log.cache.history|
      ensures ComesBackAs(l, log.cache.history[j], d) || (ok && ComesBackAs(l, log.cache.history[j], Updated(v, us)))
    {
      TraceIsAtomic(l, bufs, d, blocks, j - |old(log.cache.history)| + 1);
    }
  }
}
