/**
 The on-disk redo log, as a sequence of atomic block writes.

 Nothing here mentions the cache: a disk is a sequence of blocks, `CommitState`
 and `RecoveryState` give the disk after any number of the writes that commit and
 recovery issue, and a crash keeps the disk as it is after one of them. Module
 LogManager proves that the kernel's methods issue exactly these writes.
 */
module RedoLog {
  import opened Blocks
  import opened BufferCache
  import opened Common

  /** The log occupies blocks start .. start + size - 1: the header, then the log blocks. */
  datatype Layout = Layout(start: nat, size: nat)

  predicate InLog(l: Layout, b: nat) {
    l.start <= b < l.start + l.size
  }

  predicate Fits(l: Layout, d: Disk) {
    l.size >= 1 && l.start + l.size <= |d| <= UINT_LIMIT
  }

  /** The block numbers a transaction may contain: distinct home blocks that fit the log. */
  ghost predicate Loggable(l: Layout, size: nat, blocks: seq<nat>) {
    && |blocks| <= LOGSIZE
    && |blocks| < l.size
    && Distinct(blocks)
    && forall i :: 0 <= i < |blocks| ==> blocks[i] < size && !InLog(l, blocks[i])
  }

  // ---- The header block ----

  function HeaderCount(h: Block): Word {
    h[0]
  }

  function HeaderBlocks(h: Block): seq<nat>
    requires HeaderCount(h) <= LOGSIZE
  {
    h[1..1 + HeaderCount(h)]
  }

  /** write_head stores the count and that many block numbers; the rest of the block stays. */
  function EncodeHeader(h: Block, blocks: seq<nat>): Block
    requires |blocks| <= LOGSIZE
    requires forall i :: 0 <= i < |blocks| ==> blocks[i] < UINT_LIMIT
  {
    [|blocks|] + blocks + h[1 + |blocks|..]
  }

  /** What write_head stores, read_head reads back. */
  lemma HeaderRoundTrip(h: Block, blocks: seq<nat>)
    requires |blocks| <= LOGSIZE
    requires forall i :: 0 <= i < |blocks| ==> blocks[i] < UINT_LIMIT
    ensures HeaderCount(EncodeHeader(h, blocks)) == |blocks|
    ensures HeaderBlocks(EncodeHeader(h, blocks)) == blocks
  {}

  /** The count is the first word of the header, and the block numbers follow. */
  lemma HeaderOnDisk(h: Block, blocks: seq<nat>, i: nat)
    requires |blocks| <= LOGSIZE && i < |blocks|
    requires forall i :: 0 <= i < |blocks| ==> blocks[i] < UINT_LIMIT
    ensures EncodeHeader(h, blocks)[0] == |blocks| && EncodeHeader(h, blocks)[1 + i] == blocks[i]
  {}

  // ---- Writes ----

  /** A disk with a readable log: its header names distinct home blocks. */
  ghost predicate HeaderOk(l: Layout, d: Disk) {
    && Fits(l, d)
    && HeaderCount(d[l.start]) <= LOGSIZE
    && Loggable(l, |d|, HeaderBlocks(d[l.start]))
  }

  ghost function Committed(l: Layout, d: Disk): seq<nat>
    requires HeaderOk(l, d)
  {
    HeaderBlocks(d[l.start])
  }

  /** The disk after the first `k` log blocks are written. */
  ghost function Logged(l: Layout, d: Disk, contents: seq<Block>, k: nat): Disk
    requires Fits(l, d) && k <= |contents| < l.size
  {
    d[..l.start + 1] + contents[..k] + d[l.start + 1 + k..]
  }

  /** The log blocks follow the header in their order. */
  lemma LogOnDisk(l: Layout, d: Disk, contents: seq<Block>, i: nat)
    requires Fits(l, d) && i < |contents| < l.size
    ensures Logged(l, d, contents, |contents|)[l.start + 1 + i] == contents[i]
  {}

  ghost function WithHeader(l: Layout, d: Disk, blocks: seq<nat>): Disk
    requires Fits(l, d) && Loggable(l, |d|, blocks)
  {
    d[l.start := EncodeHeader(d[l.start], blocks)]
  }

  /** The disk after the first `k` home blocks are copied from the log. */
  ghost function Installed(l: Layout, d: Disk, blocks: seq<nat>, k: nat): (e: Disk)
    requires Fits(l, d) && Loggable(l, |d|, blocks) && k <= |blocks|
    ensures |e| == |d|
  {
    if k == 0 then d
    else
      var e := Installed(l, d, blocks, k - 1);
      e[blocks[k - 1] := e[l.start + k]]
  }

  /** The disk after `k` of the n + 1 writes of recovery. */
  ghost function RecoveryState(l: Layout, d: Disk, k: nat): (e: Disk)
    requires HeaderOk(l, d) && k <= |Committed(l, d)| + 1
    ensures |e| == |d|
  {
    var blocks := Committed(l, d);
    if k <= |blocks| then Installed(l, d, blocks, k)
    else WithHeader(l, Installed(l, d, blocks, |blocks|), [])
  }

  /** The disk a recovery that runs to its end leaves. */
  ghost function Recovered(l: Layout, d: Disk): Disk
    requires HeaderOk(l, d)
  {
    RecoveryState(l, d, |Committed(l, d)| + 1)
  }

  /** The disk after `k` of the 2n + 2 writes of commit. */
  ghost function CommitState(l: Layout, d: Disk, blocks: seq<nat>, contents: seq<Block>, k: nat): (e: Disk)
    requires Fits(l, d) && Loggable(l, |d|, blocks) && |contents| == |blocks|
    requires k <= 2 * |blocks| + 2
    ensures |e| == |d|
  {
    var n := |blocks|;
    if k <= n then Logged(l, d, contents, k)
    else
      var c := WithHeader(l, Logged(l, d, contents, n), blocks);
      if k <= 2 * n + 1 then Installed(l, c, blocks, k - n - 1)
      else WithHeader(l, Installed(l, c, blocks, n), [])
  }

  /** The transaction's effect: the home blocks changed as a whole. */
  ghost function Applied(d: Disk, blocks: seq<nat>, contents: seq<Block>): (e: Disk)
    requires |contents| == |blocks|
    requires forall i :: 0 <= i < |blocks| ==> blocks[i] < |d|
    ensures |e| == |d|
  {
    if blocks == [] then d
    else
      var n := |blocks| - 1;
      Applied(d, blocks[..n], contents[..n])[blocks[n] := contents[n]]
  }

  /** Two disks agree on every block outside the log. */
  ghost predicate SameHome(l: Layout, d: Disk, e: Disk) {
    && |d| == |e|
    && forall b :: 0 <= b < |d| && !InLog(l, b) ==> d[b] == e[b]
  }

  // ---- Installing ----

  lemma {:induction false} InstalledElsewhere(l: Layout, d: Disk, blocks: seq<nat>, k: nat, b: nat)
    requires Fits(l, d) && Loggable(l, |d|, blocks) && k <= |blocks| && b < |d|
    requires forall i :: 0 <= i < k ==> blocks[i] != b
    ensures Installed(l, d, blocks, k)[b] == d[b]
  {
    if k > 0 {
      InstalledElsewhere(l, d, blocks, k - 1, b);
    }
  }

  lemma InstallKeepsLog(l: Layout, d: Disk, blocks: seq<nat>, k: nat, b: nat)
    requires Fits(l, d) && Loggable(l, |d|, blocks) && k <= |blocks| && InLog(l, b)
    ensures Installed(l, d, blocks, k)[b] == d[b]
  {
    InstalledElsewhere(l, d, blocks, k, b);
  }

  lemma {:induction false} InstalledAt(l: Layout, d: Disk, blocks: seq<nat>, k: nat, i: nat)
    requires Fits(l, d) && Loggable(l, |d|, blocks) && i < k <= |blocks|
    ensures Installed(l, d, blocks, k)[blocks[i]] == d[l.start + i + 1]
  {
    InstallKeepsLog(l, d, blocks, k - 1, l.start + k);
    if i < k - 1 {
      InstalledAt(l, d, blocks, k - 1, i);
      assert blocks[i] != blocks[k - 1];
    }
  }

  /** Starting again from a partly installed disk gives the same disk in the end. */
  lemma InstallAgain(l: Layout, d: Disk, blocks: seq<nat>, j: nat)
    requires Fits(l, d) && Loggable(l, |d|, blocks) && j <= |blocks|
    ensures Installed(l, Installed(l, d, blocks, j), blocks, |blocks|) == Installed(l, d, blocks, |blocks|)
  {
    var n := |blocks|;
    var e := Installed(l, d, blocks, j);
    var x, y := Installed(l, e, blocks, n), Installed(l, d, blocks, n);
    forall b | 0 <= b < |d|
      ensures x[b] == y[b]
    {
      if b in blocks {
        var i :| 0 <= i < n && blocks[i] == b;
        InstalledAt(l, e, blocks, n, i);
        InstalledAt(l, d, blocks, n, i);
        InstallKeepsLog(l, d, blocks, j, l.start + i + 1);
      } else {
        InstalledElsewhere(l, e, blocks, n, b);
        InstalledElsewhere(l, d, blocks, n, b);
        InstalledElsewhere(l, d, blocks, j, b);
      }
    }
  }

  // ---- Recovery ----

  lemma RestartInstall(l: Layout, d: Disk, k: nat)
    requires HeaderOk(l, d) && k <= |Committed(l, d)|
    ensures HeaderOk(l, RecoveryState(l, d, k))
    ensures Recovered(l, RecoveryState(l, d, k)) == Recovered(l, d)
  {
    var blocks := Committed(l, d);
    var e := RecoveryState(l, d, k);
    InstallKeepsLog(l, d, blocks, k, l.start);
    assert Committed(l, e) == blocks;
    InstallAgain(l, d, blocks, k);
  }

  lemma ClearTwice(h: Block)
    ensures EncodeHeader(EncodeHeader(h, []), []) == EncodeHeader(h, [])
  {}

  lemma RestartCleared(l: Layout, d: Disk)
    requires HeaderOk(l, d)
    ensures HeaderOk(l, Recovered(l, d))
    ensures Committed(l, Recovered(l, d)) == []
    ensures Recovered(l, Recovered(l, d)) == Recovered(l, d)
  {
    var blocks := Committed(l, d);
    var f := Installed(l, d, blocks, |blocks|);
    var e := Recovered(l, d);
    HeaderRoundTrip(f[l.start], []);
    ClearTwice(f[l.start]);
    assert Installed(l, e, [], 0) == e;
    assert WithHeader(l, e, []) == e;
  }

  /** A crash during recovery leaves a disk that a later recovery completes just the same. */
  lemma RecoveryRestarts(l: Layout, d: Disk, k: nat)
    requires HeaderOk(l, d) && k <= |Committed(l, d)| + 1
    ensures HeaderOk(l, RecoveryState(l, d, k))
    ensures Recovered(l, RecoveryState(l, d, k)) == Recovered(l, d)
  {
    if k <= |Committed(l, d)| {
      RestartInstall(l, d, k);
    } else {
      RestartCleared(l, d);
    }
  }

  /** The disk after a chain of recoveries, the i-th of which crashes after at most ks[i] writes. */
  ghost function AfterCrashes(l: Layout, d: Disk, ks: seq<nat>): (e: Disk)
    requires HeaderOk(l, d)
    ensures HeaderOk(l, e)
    decreases |ks|
  {
    if ks == [] then d
    else
      var n := |Committed(l, d)|;
      var k := if ks[0] <= n + 1 then ks[0] else n + 1;
      RecoveryRestarts(l, d, k);
      AfterCrashes(l, RecoveryState(l, d, k), ks[1..])
  }

  /** However often recovery is interrupted, the first one to finish leaves the same disk. */
  lemma {:induction false} CrashesDoNotMatter(l: Layout, d: Disk, ks: seq<nat>)
    requires HeaderOk(l, d)
    ensures Recovered(l, AfterCrashes(l, d, ks)) == Recovered(l, d)
    decreases |ks|
  {
    if ks != [] {
      var n := |Committed(l, d)|;
      var k := if ks[0] <= n + 1 then ks[0] else n + 1;
      RecoveryRestarts(l, d, k);
      CrashesDoNotMatter(l, RecoveryState(l, d, k), ks[1..]);
    }
  }

  // ---- Commit ----

  lemma {:induction false} AppliedAt(d: Disk, blocks: seq<nat>, contents: seq<Block>, b: nat)
    requires |contents| == |blocks| && Distinct(blocks) && b < |d|
    requires forall i :: 0 <= i < |blocks| ==> blocks[i] < |d|
    ensures b !in blocks ==> Applied(d, blocks, contents)[b] == d[b]
    ensures forall i :: 0 <= i < |blocks| && blocks[i] == b ==> Applied(d, blocks, contents)[b] == contents[i]
  {
    if blocks != [] {
      var n := |blocks| - 1;
      AppliedAt(d, blocks[..n], contents[..n], b);
      assert blocks == blocks[..n] + [blocks[n]];
    }
  }

  /** Installing a complete log is the whole transaction. */
  lemma InstalledIsApplied(l: Layout, c: Disk, d: Disk, blocks: seq<nat>, contents: seq<Block>)
    requires Fits(l, c) && Loggable(l, |c|, blocks) && |contents| == |blocks| && SameHome(l, c, d)
    requires forall i :: 0 <= i < |blocks| ==> c[l.start + i + 1] == contents[i]
    ensures SameHome(l, Installed(l, c, blocks, |blocks|), Applied(d, blocks, contents))
  {
    var n := |blocks|;
    var x, y := Installed(l, c, blocks, n), Applied(d, blocks, contents);
    forall b | 0 <= b < |c| && !InLog(l, b)
      ensures x[b] == y[b]
    {
      AppliedAt(d, blocks, contents, b);
      if b in blocks {
        var i :| 0 <= i < n && blocks[i] == b;
        InstalledAt(l, c, blocks, n, i);
      } else {
        InstalledElsewhere(l, c, blocks, n, b);
      }
    }
  }

  lemma BeforeCommitPoint(l: Layout, d: Disk, contents: seq<Block>, k: nat)
    requires HeaderOk(l, d) && Committed(l, d) == [] && k <= |contents| < l.size
    ensures HeaderOk(l, Logged(l, d, contents, k))
    ensures SameHome(l, Recovered(l, Logged(l, d, contents, k)), d)
  {
    var e := Logged(l, d, contents, k);
    LoggedAt(l, d, contents, k, l.start);
    assert Committed(l, e) == [];
    forall b: nat | b < |d| && !InLog(l, b)
      ensures e[b] == d[b]
    {
      LoggedAt(l, d, contents, k, b);
    }
    assert Installed(l, e, [], 0) == e;
  }

  lemma LoggedAt(l: Layout, d: Disk, contents: seq<Block>, k: nat, b: nat)
    requires Fits(l, d) && k <= |contents| < l.size && b < |d|
    ensures |Logged(l, d, contents, k)| == |d|
    ensures Logged(l, d, contents, k)[b] == if l.start < b <= l.start + k then contents[b - l.start - 1] else d[b]
  {}

  /** Writing the header on a complete log leaves the home blocks alone and the log blocks in place. */
  lemma HeaderKeeps(l: Layout, d: Disk, blocks: seq<nat>, contents: seq<Block>)
    requires Fits(l, d) && Loggable(l, |d|, blocks) && |contents| == |blocks|
    ensures var c := CommitState(l, d, blocks, contents, |blocks| + 1);
            && SameHome(l, c, d)
            && forall i :: 0 <= i < |contents| ==> c[l.start + i + 1] == contents[i]
  {
    var w := Logged(l, d, contents, |blocks|);
    forall b: nat | b < |d|
      ensures |w| == |d| && w[b] == if l.start < b <= l.start + |blocks| then contents[b - l.start - 1] else d[b]
    {
      LoggedAt(l, d, contents, |blocks|, b);
    }
    var c := WithHeader(l, w, blocks);
    assert CommitState(l, d, blocks, contents, |blocks| + 1) == c;
  }

  lemma HeaderCommits(l: Layout, w: Disk, blocks: seq<nat>)
    requires Fits(l, w) && Loggable(l, |w|, blocks)
    ensures HeaderOk(l, WithHeader(l, w, blocks))
    ensures Committed(l, WithHeader(l, w, blocks)) == blocks
  {
    HeaderRoundTrip(w[l.start], blocks);
  }

  /** Recovering a disk whose header names `blocks` performs the logged transaction. */
  lemma RecoveredIsApplied(l: Layout, c: Disk, d: Disk, contents: seq<Block>)
    requires HeaderOk(l, c) && |contents| == |Committed(l, c)| && SameHome(l, c, d)
    requires forall i :: 0 <= i < |contents| ==> c[l.start + i + 1] == contents[i]
    ensures SameHome(l, Recovered(l, c), Applied(d, Committed(l, c), contents))
  {
    InstalledIsApplied(l, c, d, Committed(l, c), contents);
  }

  /** From the header write on, the writes of commit are those of a recovery. */
  lemma CommitIsRecovery(l: Layout, d: Disk, blocks: seq<nat>, contents: seq<Block>, k: nat)
    requires Fits(l, d) && Loggable(l, |d|, blocks) && |contents| == |blocks|
    requires |blocks| < k <= 2 * |blocks| + 2
    ensures var c := CommitState(l, d, blocks, contents, |blocks| + 1);
            && HeaderOk(l, c)
            && Committed(l, c) == blocks
            && CommitState(l, d, blocks, contents, k) == RecoveryState(l, c, k - |blocks| - 1)
  {
    HeaderCommits(l, Logged(l, d, contents, |blocks|), blocks);
  }

  lemma AfterCommitPoint(l: Layout, d: Disk, blocks: seq<nat>, contents: seq<Block>, k: nat)
    requires Fits(l, d) && Loggable(l, |d|, blocks) && |contents| == |blocks|
    requires |blocks| < k <= 2 * |blocks| + 2
    ensures HeaderOk(l, CommitState(l, d, blocks, contents, k))
    ensures SameHome(l, Recovered(l, CommitState(l, d, blocks, contents, k)), Applied(d, blocks, contents))
  {
    hide Recovered, RecoveryState, SameHome, Applied, Loggable, CommitState, HeaderOk, Committed, Fits;
    CommitIsRecovery(l, d, blocks, contents, k);
    HeaderKeeps(l, d, blocks, contents);
    var c := CommitState(l, d, blocks, contents, |blocks| + 1);
    RecoveredIsApplied(l, c, d, contents);
    RecoveryRestarts(l, c, k - |blocks| - 1);
  }

  /** Before the header write a crash loses the transaction; from the header write on it keeps all of it. */
  lemma CommitPoint(l: Layout, d: Disk, blocks: seq<nat>, contents: seq<Block>, k: nat)
    requires HeaderOk(l, d) && Committed(l, d) == []
    requires Loggable(l, |d|, blocks) && |contents| == |blocks|
    requires k <= 2 * |blocks| + 2
    ensures HeaderOk(l, CommitState(l, d, blocks, contents, k))
    ensures SameHome(l, Recovered(l, CommitState(l, d, blocks, contents, k)),
                     if k <= |blocks| then d else Applied(d, blocks, contents))
  {
    if k <= |blocks| {
      BeforeCommitPoint(l, d, contents, k);
      assert CommitState(l, d, blocks, contents, k) == Logged(l, d, contents, k);
    } else {
      AfterCommitPoint(l, d, blocks, contents, k);
    }
  }

  /** A commit that runs to its end has performed the transaction and emptied the log. */
  lemma CommitEnd(l: Layout, d: Disk, blocks: seq<nat>, contents: seq<Block>)
    requires Fits(l, d) && Loggable(l, |d|, blocks) && |contents| == |blocks|
    ensures var e := CommitState(l, d, blocks, contents, 2 * |blocks| + 2);
            && SameHome(l, e, Applied(d, blocks, contents))
            && HeaderOk(l, e)
            && Committed(l, e) == []
  {
    CommitIsRecovery(l, d, blocks, contents, 2 * |blocks| + 2);
    HeaderKeeps(l, d, blocks, contents);
    var c := CommitState(l, d, blocks, contents, |blocks| + 1);
    RecoveredIsApplied(l, c, d, contents);
    RestartCleared(l, c);
  }

  /**
   Crash atomicity. The machine stops after any number of commit's writes, and then
   any number of recoveries are themselves interrupted at any write. The first
   recovery to finish leaves the home blocks as before the transaction or as after
   it, as decided by the header write alone, and leaves the log empty.
   */
  lemma CrashAtomicity(l: Layout, d: Disk, blocks: seq<nat>, contents: seq<Block>, k: nat, ks: seq<nat>)
    requires HeaderOk(l, d) && Committed(l, d) == []
    requires Loggable(l, |d|, blocks) && |contents| == |blocks|
    requires k <= 2 * |blocks| + 2
    ensures var c := CommitState(l, d, blocks, contents, k);
            && HeaderOk(l, c)
            && var e := Recovered(l, AfterCrashes(l, c, ks));
            && SameHome(l, e, if k <= |blocks| then d else Applied(d, blocks, contents))
            && HeaderOk(l, e)
            && Committed(l, e) == []
  {
    CommitPoint(l, d, blocks, contents, k);
    var c := CommitState(l, d, blocks, contents, k);
    CrashesDoNotMatter(l, c, ks);
    RestartCleared(l, c);
  }
}
