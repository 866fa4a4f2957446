/**
 The buffer cache: NBUF buffers threaded through NBUCKET hash buckets.

 A buffer is named by its index in the pool; a bucket is the sequence of the
 buffers linked on it, in list order. The methods run one call at a time, so a
 bucket lock is never seen held. The kernel has one disk, ROOTDEV; a buffer that
 has never been used has device 0. Reference counts are unsigned 32-bit counters
 and wrap around.
 */
module BufferCache {
  import opened Blocks
  import opened Common

  const NBUF := 30
  const NBUCKET := 13
  const ROOTDEV := 1

  type Disk = seq<Block>

  datatype Buf = Buf(dev: nat, blockno: nat, valid: bool, refcnt: Word, data: Block,
                     timestamp: nat, locked: bool)

  const UNUSED_BUF := Buf(0, 0, false, 0, ZERO_BLOCK, 0, false)

  function Inc(n: Word): Word {
    if n == UINT_LIMIT - 1 then 0 else n + 1
  }

  function Dec(n: Word): Word {
    if n == 0 then UINT_LIMIT - 1 else n - 1
  }

  function Hash(blockno: nat): (h: nat)
    ensures h < NBUCKET
  {
    blockno % NBUCKET
  }

  predicate Holds(b: Buf, blockno: nat) {
    b.dev == ROOTDEV && b.blockno == blockno
  }

  /** Some buffer holds block `blockno`. */
  ghost predicate Cached(bufs: seq<Buf>, blockno: nat) {
    exists i :: 0 <= i < |bufs| && Holds(bufs[i], blockno)
  }

  /** No disk block has two buffers. */
  ghost predicate Unique(bufs: seq<Buf>) {
    forall i, j :: 0 <= i < j < |bufs| && bufs[i].dev == ROOTDEV && bufs[j].dev == ROOTDEV ==>
                     bufs[i].blockno != bufs[j].blockno
  }

  /** Bucket `h` lists, once each, exactly the buffers whose block hashes to `h`. */
  ghost predicate Indexed(bufs: seq<Buf>, buckets: seq<seq<nat>>) {
    && |buckets| == NBUCKET
    && (forall h :: 0 <= h < NBUCKET ==> Distinct(buckets[h]))
    && (forall h, x {:trigger x in buckets[h]} :: 0 <= h < NBUCKET && x in buckets[h] ==>
         0 <= x < |bufs| && Hash(bufs[x].blockno) == h)
    && (forall x :: 0 <= x < |bufs| ==> x in buckets[Hash(bufs[x].blockno)])
  }

  /** How many buckets a search starting at bucket `bid` passes before bucket `h`. */
  function Distance(bid: nat, h: nat): (d: nat)
    requires bid < NBUCKET && h < NBUCKET
    ensures d < NBUCKET
  {
    if bid <= h then h - bid else h + NBUCKET - bid
  }

  /** `v` is unused; no unused buffer lies in an earlier bucket of the search, or is older in the same bucket. */
  ghost predicate IsVictim(bufs: seq<Buf>, blockno: nat, v: nat) {
    && v < |bufs|
    && bufs[v].refcnt == 0
    && forall x :: 0 <= x < |bufs| && bufs[x].refcnt == 0 ==>
         var dx := Distance(Hash(blockno), Hash(bufs[x].blockno));
         var dv := Distance(Hash(blockno), Hash(bufs[v].blockno));
         dv < dx || (dv == dx && bufs[v].timestamp <= bufs[x].timestamp)
  }

  /** There is no buffer to give: the block is not cached and every buffer is in use. */
  ghost predicate NoRoom(bufs: seq<Buf>, blockno: nat) {
    forall i :: 0 <= i < |bufs| ==> !Holds(bufs[i], blockno) && bufs[i].refcnt != 0
  }

  /** What `Bread` does to the buffer pool when it returns buffer `i`. */
  ghost predicate ReadInto(before: seq<Buf>, after: seq<Buf>, disk: Disk, blockno: nat, i: nat) {
    && i < |before|
    && blockno < |disk|
    && |after| == |before|
    && after == before[i := after[i]]
    && Holds(after[i], blockno)
    && after[i].valid
    && after[i].locked
    && if Holds(before[i], blockno) then
         && after[i].refcnt == Inc(before[i].refcnt)
         && after[i].data == (if before[i].valid then before[i].data else disk[blockno])
       else
         && !Cached(before, blockno)
         && IsVictim(before, blockno, i)
         && after[i].refcnt == 1
         && after[i].data == disk[blockno]
  }

  function Without(q: seq<nat>, x: nat): (r: seq<nat>)
    ensures forall y :: y in r <==> y in q && y != x
    ensures Distinct(q) ==> Distinct(r)
  {
    if q == [] then []
    else
      var rest := Without(q[1..], x);
      assert forall y :: y in q <==> y == q[0] || y in q[1..];
      if q[0] == x then rest
      else
        PushKeepsDistinct(rest, q[0]);
        [q[0]] + rest
  }

  lemma PushKeepsDistinct(q: seq<nat>, b: nat)
    ensures Distinct(q) && b !in q ==> Distinct([b] + q)
  {
    var r := [b] + q;
    assert forall j :: 1 <= j < |r| ==> r[j] == q[j - 1] && r[j] in q;
  }

  /** Moving buffer `b` to the bucket of its new block keeps the buckets an index of the pool. */
  lemma StealKeepsIndex(bufs: seq<Buf>, buckets: seq<seq<nat>>, b: nat, nb: Buf)
    requires Indexed(bufs, buckets) && b < |bufs|
    ensures var from, to := Hash(bufs[b].blockno), Hash(nb.blockno);
            from != to ==>
              Indexed(bufs[b := nb], buckets[from := Without(buckets[from], b)][to := [b] + buckets[to]])
    ensures Hash(bufs[b].blockno) == Hash(nb.blockno) ==> Indexed(bufs[b := nb], buckets)
  {
    var from, to, bufs' := Hash(bufs[b].blockno), Hash(nb.blockno), bufs[b := nb];
    if from != to {
      PushKeepsDistinct(buckets[to], b);
      var buckets' := buckets[from := Without(buckets[from], b)][to := [b] + buckets[to]];
      forall h, x | 0 <= h < NBUCKET && x in buckets'[h]
        ensures 0 <= x < |bufs'| && Hash(bufs'[x].blockno) == h
      {
        assert (x == b && h == to) || x in buckets[h];
      }
    } else {
      forall h, x | 0 <= h < NBUCKET && x in buckets[h]
        ensures 0 <= x < |bufs'| && Hash(bufs'[x].blockno) == h
      {
      }
    }
  }

  class Cache {
    var disk: Disk
    ghost var history: seq<Disk>  // every state of the disk, oldest first
    var bufs: seq<Buf>
    var buckets: seq<seq<nat>>

    ghost predicate Valid()
      reads this
    {
      && |bufs| == NBUF
      && Indexed(bufs, buckets)
      && Unique(bufs)
      && (forall i :: 0 <= i < |bufs| && bufs[i].dev == ROOTDEV ==> bufs[i].blockno < |disk|)
      && history != []
      && history[|history| - 1] == disk
    }

    /** binit: every buffer starts unused, on bucket 0. */
    constructor (disk: Disk)
      ensures Valid()
      ensures this.disk == disk && history == [disk]
      ensures bufs == seq(NBUF, _ => UNUSED_BUF)
    {
      this.disk := disk;
      history := [disk];
      bufs := seq(NBUF, _ => UNUSED_BUF);
      var q: seq<nat> := [];
      var b := 0;
      while b < NBUF
        invariant 0 <= b <= NBUF && |q| == b
        invariant forall x :: x in q <==> 0 <= x < b
        invariant Distinct(q)
      {
        PushKeepsDistinct(q, b);
        q := [b] + q;
        b := b + 1;
      }
      buckets := seq(NBUCKET, h => if h == 0 then q else []);
    }

    /** The least recently used unused buffer of one bucket. */
    method OldestUnused(q: seq<nat>) returns (r: Option<nat>)
      requires forall x :: x in q ==> 0 <= x < |bufs|
      ensures r.None? ==> forall x :: x in q ==> bufs[x].refcnt != 0
      ensures r.Some? ==> r.value in q && bufs[r.value].refcnt == 0
      ensures r.Some? ==> forall x :: x in q && bufs[x].refcnt == 0 ==> bufs[r.value].timestamp <= bufs[x].timestamp
    {
      r := None;
      var k := 0;
      assert forall j :: 0 <= j < |q| ==> q[j] in q;
      while k < |q|
        invariant 0 <= k <= |q|
        invariant forall j :: 0 <= j < |q| ==> 0 <= q[j] < |bufs|
        invariant r.None? ==> forall j :: 0 <= j < k ==> bufs[q[j]].refcnt != 0
        invariant r.Some? ==> r.value in q && r.value < |bufs| && bufs[r.value].refcnt == 0
        invariant r.Some? ==> forall j :: 0 <= j < k && bufs[q[j]].refcnt == 0 ==>
          bufs[r.value].timestamp <= bufs[q[j]].timestamp
      {
        var tmp := q[k];
        if bufs[tmp].refcnt == 0 && (r.None? || bufs[tmp].timestamp < bufs[r.value].timestamp) {
          r := Some(tmp);
        }
        k := k + 1;
      }
    }

    /** The first loop of bget: the buffer already holding the block, if there is one. */
    method Lookup(blockno: nat) returns (r: Option<nat>)
      requires Valid()
      ensures r.None? <==> !Cached(bufs, blockno)
      ensures r.Some? ==> r.value < NBUF && Holds(bufs[r.value], blockno)
    {
      var q := buckets[Hash(blockno)];
      var k := 0;
      assert forall j :: 0 <= j < |q| ==> q[j] in q;
      while k < |q|
        invariant 0 <= k <= |q|
        invariant forall j :: 0 <= j < |q| ==> 0 <= q[j] < NBUF
        invariant forall j :: 0 <= j < k ==> !Holds(bufs[q[j]], blockno)
      {
        if Holds(bufs[q[k]], blockno) {
          return Some(q[k]);
        }
        k := k + 1;
      }
      return None;
    }

    /** The second loop of bget: visit the buckets in turn until one has an unused buffer. */
    method FindVictim(blockno: nat) returns (r: Option<nat>)
      requires Valid()
      ensures r.None? <==> forall x :: 0 <= x < NBUF ==> bufs[x].refcnt != 0
      ensures r.Some? ==> IsVictim(bufs, blockno, r.value)
    {
      var bid := Hash(blockno);
      var i, cycle := bid, 0;
      while cycle != NBUCKET
        invariant 0 <= cycle <= NBUCKET && 0 <= i < NBUCKET && (cycle < NBUCKET ==> Distance(bid, i) == cycle)
        invariant forall x :: 0 <= x < NBUF && Distance(bid, Hash(bufs[x].blockno)) < cycle ==> bufs[x].refcnt != 0
      {
        r := OldestUnused(buckets[i]);
        if r.Some? {
          return;
        }
        cycle := cycle + 1;
        i := if i + 1 == NBUCKET then 0 else i + 1;
      }
      return None;
    }

    /** A locked buffer for the block, or None where bget panics. */
    method Bget(blockno: nat) returns (r: Option<nat>)
      requires Valid() && blockno < |disk|
      requires forall i :: 0 <= i < NBUF && Holds(bufs[i], blockno) ==> !bufs[i].locked
      modifies this`bufs, this`buckets
      ensures Valid()
      ensures r.None? <==> NoRoom(old(bufs), blockno)
      ensures r.None? ==> bufs == old(bufs) && buckets == old(buckets)
      ensures r.Some? ==>
        && r.value < NBUF
        && |bufs| == |old(bufs)|
        && bufs == old(bufs)[r.value := bufs[r.value]]
        && Holds(bufs[r.value], blockno)
        && bufs[r.value].locked
      ensures r.Some? && Holds(old(bufs)[r.value], blockno) ==>
        && bufs[r.value].refcnt == Inc(old(bufs)[r.value].refcnt)
        && bufs[r.value].data == old(bufs)[r.value].data
        && bufs[r.value].valid == old(bufs)[r.value].valid
      ensures r.Some? && !Holds(old(bufs)[r.value], blockno) ==>
        && !Cached(old(bufs), blockno)
        && IsVictim(old(bufs), blockno, r.value)
        && bufs[r.value].refcnt == 1
        && !bufs[r.value].valid
    {
      var now: nat := *;  // ticks
      r := Lookup(blockno);
      if r.Some? {
        var b := bufs[r.value];
        bufs := bufs[r.value := b.(refcnt := Inc(b.refcnt), timestamp := now, locked := true)];
        return;
      }
      r := FindVictim(blockno);
      if r.Some? {
        var b := bufs[r.value];
        var nb := b.(dev := ROOTDEV, blockno := blockno, valid := false, refcnt := 1, timestamp := now, locked := true);
        var from, to := Hash(b.blockno), Hash(blockno);
        StealKeepsIndex(bufs, buckets, r.value, nb);
        if from != to {
          buckets := buckets[from := Without(buckets[from], r.value)][to := [r.value] + buckets[to]];
        }
        bufs := bufs[r.value := nb];
      }
    }

    method Bread(blockno: nat) returns (r: Option<nat>)
      requires Valid() && blockno < |disk|
      requires forall i :: 0 <= i < NBUF && Holds(bufs[i], blockno) ==> !bufs[i].locked
      modifies this`bufs, this`buckets
      ensures Valid()
      ensures r.None? <==> NoRoom(old(bufs), blockno)
      ensures r.None? ==> bufs == old(bufs)
      ensures r.Some? ==> ReadInto(old(bufs), bufs, disk, blockno, r.value)
    {
      r := Bget(blockno);
      if r.Some? && !bufs[r.value].valid {
        bufs := bufs[r.value := bufs[r.value].(data := disk[blockno], valid := true)];
      }
    }

    /** One block reaches the disk atomically; every such step is recorded. */
    method Bwrite(i: nat)
      requires Valid() && i < NBUF && bufs[i].dev == ROOTDEV && bufs[i].locked
      modifies this`disk, this`history
      ensures Valid()
      ensures disk == old(disk)[bufs[i].blockno := bufs[i].data]
      ensures history == old(history) + [disk]
    {
      disk := disk[bufs[i].blockno := bufs[i].data];
      history := history + [disk];
    }

    method Brelse(i: nat)
      requires Valid() && i < NBUF && bufs[i].locked
      modifies this`bufs
      ensures Valid()
      ensures |bufs| == |old(bufs)|
      ensures bufs == old(bufs)[i := old(bufs)[i].(refcnt := Dec(old(bufs)[i].refcnt), locked := false,
                                                   timestamp := bufs[i].timestamp)]
    {
      var now: nat := *;
      bufs := bufs[i := bufs[i].(refcnt := Dec(bufs[i].refcnt), locked := false, timestamp := now)];
    }

    method Bpin(i: nat)
      requires Valid() && i < NBUF
      modifies this`bufs
      ensures Valid()
      ensures bufs == old(bufs)[i := old(bufs)[i].(refcnt := Inc(old(bufs)[i].refcnt))]
    {
      bufs := bufs[i := bufs[i].(refcnt := Inc(bufs[i].refcnt))];
    }

    method Bunpin(i: nat)
      requires Valid() && i < NBUF
      modifies this`bufs
      ensures Valid()
      ensures bufs == old(bufs)[i := old(bufs)[i].(refcnt := Dec(old(bufs)[i].refcnt))]
    {
      bufs := bufs[i := bufs[i].(refcnt := Dec(bufs[i].refcnt))];
    }

    /** memmove into a buffer the caller holds. */
    method Fill(i: nat, data: Block)
      requires Valid() && i < NBUF && bufs[i].locked
      modifies this`bufs
      ensures Valid()
      ensures bufs == old(bufs)[i := old(bufs)[i].(data := data)]
    {
      bufs := bufs[i := bufs[i].(data := data)];
    }
  }
}
