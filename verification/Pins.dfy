/**
 Reference counts and coherence of the buffer pool, as the log uses it.

 Everything here is about values of the pool; module LogManager applies it step
 by step. A buffer's count is what its lock holder and the log owe it.
 */
module Pins {
  import opened Blocks
  import opened BufferCache
  import opened Common

  /** The first `k` elements of `s`, as a set. */
  function First(s: seq<nat>, k: nat): set<nat>
    requires k <= |s|
  {
    if k == 0 then {} else First(s, k - 1) + {s[k - 1]}
  }

  function Elems(s: seq<nat>): set<nat> {
    First(s, |s|)
  }

  lemma {:induction false} InFirst(s: seq<nat>, k: nat, x: nat)
    requires k <= |s|
    ensures x in First(s, k) <==> exists i :: 0 <= i < k && s[i] == x
  {
    if k > 0 {
      InFirst(s, k - 1, x);
    }
  }

  lemma {:induction false} FirstOfLonger(s: seq<nat>, t: seq<nat>, k: nat)
    requires k <= |s|
    ensures First(s + t, k) == First(s, k)
  {
    if k > 0 {
      FirstOfLonger(s, t, k - 1);
    }
  }

  lemma ElemsAppend(s: seq<nat>, x: nat)
    ensures Elems(s + [x]) == Elems(s) + {x}
  {
    FirstOfLonger(s, [x], |s|);
  }

  lemma {:induction false} FirstSize(s: seq<nat>, k: nat)
    requires Distinct(s) && k <= |s|
    ensures |First(s, k)| == k
  {
    if k > 0 {
      FirstSize(s, k - 1);
      InFirst(s, k - 1, s[k - 1]);
    }
  }

  /** The pins block `blockno` carries: `pin` while it waits to be installed, one less once it is. */
  function PinsOf(blockno: nat, todo: set<nat>, done: set<nat>, pin: int): int {
    if blockno in todo then pin else if blockno in done then pin - 1 else 0
  }

  /** The references a buffer ought to count. */
  function Owed(b: Buf, todo: set<nat>, done: set<nat>, pin: int): int {
    (if b.locked then 1 else 0) + (if b.dev == ROOTDEV then PinsOf(b.blockno, todo, done, pin) else 0)
  }

  /** Every count is what it ought to be, in 32-bit arithmetic. */
  ghost predicate Accounted(bufs: seq<Buf>, todo: set<nat>, done: set<nat>, pin: int) {
    forall i :: 0 <= i < |bufs| ==> bufs[i].refcnt == Owed(bufs[i], todo, done, pin) % UINT_LIMIT
  }

  ghost predicate Unlocked(bufs: seq<Buf>) {
    forall i :: 0 <= i < |bufs| ==> !bufs[i].locked
  }

  /** A valid buffer nobody holds equals the disk, unless its block is still dirty. */
  ghost predicate Coherent(bufs: seq<Buf>, disk: Disk, dirty: set<nat>) {
    forall i :: 0 <= i < |bufs| && bufs[i].dev == ROOTDEV && bufs[i].valid && !bufs[i].locked
                ==> bufs[i].blockno < |disk| && (bufs[i].blockno in dirty || bufs[i].data == disk[bufs[i].blockno])
  }

  /** Every block of `pinned` has a valid buffer. */
  ghost predicate AllCached(bufs: seq<Buf>, pinned: set<nat>) {
    && (forall b :: b in pinned ==> Cached(bufs, b))
    && (forall i :: 0 <= i < |bufs| && bufs[i].dev == ROOTDEV && bufs[i].blockno in pinned ==> bufs[i].valid)
  }

  // ---- The disk as the file system sees it ----

  /** The current contents of a block: its buffer's if it has a valid one, the disk's if not. */
  ghost function Current(bufs: seq<Buf>, disk: Disk, b: nat): Block
    requires b < |disk|
  {
    if exists i :: 0 <= i < |bufs| && Holds(bufs[i], b) && bufs[i].valid
    then var i :| 0 <= i < |bufs| && Holds(bufs[i], b) && bufs[i].valid; bufs[i].data
    else disk[b]
  }

  ghost function View(bufs: seq<Buf>, disk: Disk): (v: Disk)
    ensures |v| == |disk|
  {
    seq(|disk|, b requires 0 <= b < |disk| => Current(bufs, disk, b))
  }

  lemma CurrentIs(bufs: seq<Buf>, disk: Disk, b: nat, i: nat)
    requires Unique(bufs) && b < |disk| && i < |bufs| && Holds(bufs[i], b) && bufs[i].valid
    ensures Current(bufs, disk, b) == bufs[i].data
  {}

  /** A block that is not dirty reads as it is on disk. */
  lemma CurrentIsDisk(bufs: seq<Buf>, disk: Disk, dirty: set<nat>, b: nat)
    requires Coherent(bufs, disk, dirty) && Unlocked(bufs) && b < |disk| && b !in dirty
    ensures Current(bufs, disk, b) == disk[b]
  {}

  // ---- bread ----

  /** What bread returns, and what it keeps, under the accounting. */
  lemma ReadStep(before: seq<Buf>, after: seq<Buf>, disk: Disk, b: nat, i: nat,
                 todo: set<nat>, done: set<nat>, pin: int, dirty: set<nat>)
    requires ReadInto(before, after, disk, b, i)
    requires Accounted(before, todo, done, pin) && Coherent(before, disk, dirty)
    requires before[i].refcnt == 0 || Holds(before[i], b)
    requires Holds(before[i], b) ==> !before[i].locked
    requires !Cached(before, b) ==> PinsOf(b, todo, done, pin) == 0
    ensures Accounted(after, todo, done, pin)
    ensures Coherent(after, disk, dirty)
    ensures b !in dirty ==> after[i].data == disk[b]
  {}

  /** A pinned block is never the victim. */
  lemma ReadKeepsPinned(before: seq<Buf>, after: seq<Buf>, disk: Disk, b: nat, i: nat, pinned: set<nat>)
    requires ReadInto(before, after, disk, b, i)
    requires AllCached(before, pinned)
    requires forall j :: 0 <= j < |before| && before[j].dev == ROOTDEV && before[j].blockno in pinned ==>
      before[j].refcnt != 0
    ensures AllCached(after, pinned)
  {
    forall x | x in pinned
      ensures Cached(after, x)
    {
      var j :| 0 <= j < |before| && Holds(before[j], x);
      assert Holds(after[j], x);
    }
  }

  /** Neither a cache fill nor the eviction it may cause changes what any block reads as. */
  lemma ReadKeepsView(before: seq<Buf>, after: seq<Buf>, disk: Disk, b: nat, i: nat, dirty: set<nat>)
    requires ReadInto(before, after, disk, b, i) && Unique(before) && Unique(after)
    requires Coherent(before, disk, dirty)
    requires Holds(before[i], b) || (before[i].dev == ROOTDEV ==> before[i].blockno !in dirty && !before[i].locked)
    ensures View(after, disk) == View(before, disk)
  {
    forall x | 0 <= x < |disk|
      ensures Current(after, disk, x) == Current(before, disk, x)
    {
      ReadKeepsCurrent(before, after, disk, b, i, dirty, x);
    }
  }

  lemma ReadKeepsCurrent(before: seq<Buf>, after: seq<Buf>, disk: Disk, b: nat, i: nat, dirty: set<nat>, x: nat)
    requires ReadInto(before, after, disk, b, i) && Unique(before) && Unique(after)
    requires Coherent(before, disk, dirty) && x < |disk|
    requires Holds(before[i], b) || (before[i].dev == ROOTDEV ==> before[i].blockno !in dirty && !before[i].locked)
    ensures Current(after, disk, x) == Current(before, disk, x)
  {
    if x == b {
      CurrentIs(after, disk, b, i);
      if Holds(before[i], b) && before[i].valid {
        CurrentIs(before, disk, b, i);
      }
    } else if exists j :: 0 <= j < |before| && Holds(before[j], x) && before[j].valid {
      var j :| 0 <= j < |before| && Holds(before[j], x) && before[j].valid;
      CurrentIs(before, disk, x, j);
      if j != i {
        assert Holds(after[j], x);
        CurrentIs(after, disk, x, j);
      } else {
        forall m | 0 <= m < |after|
          ensures !Holds(after[m], x)
        {
          assert m != i ==> after[m] == before[m];
        }
      }
    } else {
      forall m | 0 <= m < |after|
        ensures !(Holds(after[m], x) && after[m].valid)
      {
        assert m != i ==> after[m] == before[m];
      }
    }
  }

  /** Buffers that differ only in counts, locks and timestamps read the same. */
  ghost predicate SameData(before: seq<Buf>, after: seq<Buf>) {
    && |before| == |after|
    && forall i :: 0 <= i < |before| ==>
         && before[i].dev == after[i].dev && before[i].blockno == after[i].blockno
         && before[i].valid == after[i].valid && before[i].data == after[i].data
  }

  lemma SameDataSameView(before: seq<Buf>, after: seq<Buf>, disk: Disk)
    requires SameData(before, after) && Unique(before)
    ensures View(after, disk) == View(before, disk)
  {
    forall x | 0 <= x < |disk|
      ensures Current(after, disk, x) == Current(before, disk, x)
    {
      assert forall i :: 0 <= i < |before| ==> Holds(after[i], x) == Holds(before[i], x);
      if exists i :: 0 <= i < |after| && Holds(after[i], x) && after[i].valid {
        var i :| 0 <= i < |after| && Holds(after[i], x) && after[i].valid;
        CurrentIs(before, disk, x, i);
        CurrentIs(after, disk, x, i);
      }
    }
  }

  /** Changing the data of a buffer changes what its block reads as, and nothing else. */
  lemma FillView(before: seq<Buf>, after: seq<Buf>, disk: Disk, i: nat, data: Block)
    requires Unique(before) && i < |before| && before[i].dev == ROOTDEV && before[i].valid && before[i].blockno < |disk|
    requires after == before[i := before[i].(data := data)]
    ensures View(after, disk) == View(before, disk)[before[i].blockno := data]
  {
    var b := before[i].blockno;
    CurrentIs(after, disk, b, i);
    forall x | 0 <= x < |disk| && x != b
      ensures Current(after, disk, x) == Current(before, disk, x)
    {
      assert forall j :: 0 <= j < |before| ==> (Holds(after[j], x) <==> Holds(before[j], x));
      if exists j :: 0 <= j < |after| && Holds(after[j], x) && after[j].valid {
        var j :| 0 <= j < |after| && Holds(after[j], x) && after[j].valid;
        assert Holds(before[j], x);
        CurrentIs(before, disk, x, j);
        CurrentIs(after, disk, x, j);
      }
    }
  }

  // ---- Counting buffers ----

  /** The blocks the first `k` buffers hold. */
  ghost function HeldBlocks(bufs: seq<Buf>, k: nat): set<nat>
    requires k <= |bufs|
  {
    set i | 0 <= i < k && bufs[i].dev == ROOTDEV :: bufs[i].blockno
  }

  lemma {:induction false} HeldSize(bufs: seq<Buf>, k: nat)
    requires k <= |bufs|
    ensures |HeldBlocks(bufs, k)| <= k
    ensures Unique(bufs) && (forall i :: 0 <= i < k ==> bufs[i].dev == ROOTDEV) ==> |HeldBlocks(bufs, k)| == k
  {
    if k > 0 {
      HeldSize(bufs, k - 1);
      var less, b := HeldBlocks(bufs, k - 1), bufs[k - 1];
      if b.dev == ROOTDEV {
        assert HeldBlocks(bufs, k) == less + {b.blockno};
      } else {
        assert HeldBlocks(bufs, k) == less;
      }
    }
  }

  /** Fewer blocks in use than buffers leaves an unused buffer. */
  lemma SpareBuffer(bufs: seq<Buf>, used: set<nat>)
    requires Unique(bufs) && |used| < |bufs|
    requires forall i :: 0 <= i < |bufs| && bufs[i].refcnt != 0 ==> bufs[i].dev == ROOTDEV && bufs[i].blockno in used
    ensures exists i :: 0 <= i < |bufs| && bufs[i].refcnt == 0
  {
    if forall i :: 0 <= i < |bufs| ==> bufs[i].refcnt != 0 {
      HeldSize(bufs, |bufs|);
      SubsetSize(HeldBlocks(bufs, |bufs|), used);
      assert false;
    }
  }

  /** As many cached blocks as buffers leaves no buffer for any other block. */
  lemma NoSpareBuffer(bufs: seq<Buf>, used: set<nat>, i: nat)
    requires i < |bufs| && |used| == |bufs|
    requires forall b :: b in used ==> Cached(bufs, b)
    ensures bufs[i].dev == ROOTDEV && bufs[i].blockno in used
  {
    if !(bufs[i].dev == ROOTDEV && bufs[i].blockno in used) {
      var n := |bufs| - 1;
      var rest := bufs[..i] + bufs[i + 1..];
      forall b | b in used
        ensures b in HeldBlocks(rest, n)
      {
        var j :| 0 <= j < |bufs| && Holds(bufs[j], b);
        var m := if j < i then j else j - 1;
        assert rest[m] == bufs[j];
      }
      HeldSize(rest, n);
      SubsetSize(used, HeldBlocks(rest, n));
    }
  }
}
