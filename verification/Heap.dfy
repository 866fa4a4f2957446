/**
 The user-level allocator: a circular free list kept in address order, with
 coalescing of neighbours.

 Addresses and sizes are in units of one header (16 bytes). `mem` holds the
 headers; a block with header `a` and size `n` is the units a .. a + n - 1, and
 its owner may use all but the first. The break is a multiple of a header's size.
 */
module Heap {
  import opened Common

  const BASE := 1          // the address of the static header `base`
  const HEADER_BYTES := 16
  const MIN_GROWTH := 4096
  const INT_UNITS := 0x800_0000  // units of 2^31 bytes: sbrk takes a 32-bit int and keeps the break in one

  datatype Header = Header(ptr: nat, size: nat)

  type Memory = map<nat, Header>

  // ---- The free list, as a list of blocks ----

  datatype Block = Block(a: nat, n: nat)

  predicate Within(u: nat, b: Block) {
    b.a <= u < b.a + b.n
  }

  /** The free blocks in address order, the empty block `base` first; no two overlap or touch. */
  ghost predicate Sorted(fl: seq<Block>) {
    && |fl| >= 1
    && fl[0] == Block(BASE, 0)
    && (forall i :: 1 <= i < |fl| ==> fl[i].n >= 1)
    && (forall i, j :: 0 <= i < j < |fl| ==> fl[i].a + fl[i].n < fl[j].a)
  }

  /** Unit `u` belongs to a free block. */
  ghost predicate FreeAt(fl: seq<Block>, u: nat) {
    exists i :: 0 <= i < |fl| && Within(u, fl[i])
  }

  /** Block `b` lies after the `i`-th free block and before the next, overlapping neither. */
  ghost predicate Between(fl: seq<Block>, i: nat, b: Block) {
    && i < |fl|
    && b.n >= 1
    && fl[i].a < b.a && fl[i].a + fl[i].n <= b.a
    && (i + 1 < |fl| ==> b.a + b.n <= fl[i + 1].a)
  }

  /** The list after `b` is given back between blocks `i` and `i + 1`, joined to those it touches. */
  function Give(fl: seq<Block>, i: nat, b: Block): seq<Block>
    requires i < |fl|
  {
    var joinsLeft := fl[i].a + fl[i].n == b.a;
    var joinsRight := i + 1 < |fl| && b.a + b.n == fl[i + 1].a;
    if joinsLeft && joinsRight then fl[..i] + [Block(fl[i].a, fl[i].n + b.n + fl[i + 1].n)] + fl[i + 2..]
    else if joinsLeft then fl[i := Block(fl[i].a, fl[i].n + b.n)]
    else if joinsRight then fl[i + 1 := Block(b.a, b.n + fl[i + 1].n)]
    else fl[..i + 1] + [b] + fl[i + 1..]
  }

  lemma SameAddress(fl: seq<Block>, i: nat, j: nat)
    requires Sorted(fl) && i < |fl| && j < |fl|
    ensures fl[i].a == fl[j].a <==> i == j
  {}

  /** Block `k` of the list after `b` is given back. */
  lemma GiveAt(fl: seq<Block>, i: nat, b: Block, k: nat)
    requires i < |fl|
    ensures var fl', joinsLeft := Give(fl, i, b), fl[i].a + fl[i].n == b.a;
            var joinsRight := i + 1 < |fl| && b.a + b.n == fl[i + 1].a;
            && |fl'| == |fl| + 1 - (if joinsLeft then 1 else 0) - (if joinsRight then 1 else 0)
            && (k < |fl'| ==>
                  fl'[k] == if k < i || (k == i && !joinsLeft) then fl[k]
                            else if joinsLeft && k == i
                            then Block(fl[i].a, fl[i].n + b.n + if joinsRight then fl[i + 1].n else 0)
                            else if joinsLeft then fl[k + if joinsRight then 1 else 0]
                            else if k == i + 1 then Block(b.a, b.n + if joinsRight then fl[i + 1].n else 0)
                            else fl[k - if joinsRight then 0 else 1])
  {}

  lemma GiveOrdered(fl: seq<Block>, i: nat, b: Block, j: nat, k: nat)
    requires Sorted(fl) && Between(fl, i, b) && j < k < |Give(fl, i, b)|
    ensures var fl' := Give(fl, i, b);
            fl'[j].a + fl'[j].n < fl'[k].a && fl'[k].n >= 1
  {
    GiveAt(fl, i, b, j);
    GiveAt(fl, i, b, k);
  }

  /** Giving a block back keeps the list sorted and fully joined. */
  lemma GiveSorted(fl: seq<Block>, i: nat, b: Block)
    requires Sorted(fl) && Between(fl, i, b)
    ensures Sorted(Give(fl, i, b))
  {
    GiveAt(fl, i, b, 0);
    forall j, k | 0 <= j < k < |Give(fl, i, b)|
      ensures var fl' := Give(fl, i, b);
              fl'[j].a + fl'[j].n < fl'[k].a && fl'[k].n >= 1
    {
      GiveOrdered(fl, i, b, j, k);
    }
  }

  lemma GiveNoMore(fl: seq<Block>, i: nat, b: Block, u: nat, k: nat)
    requires Sorted(fl) && Between(fl, i, b) && k < |Give(fl, i, b)| && Within(u, Give(fl, i, b)[k])
    ensures FreeAt(fl, u) || Within(u, b)
  {
    hide Give;
    var joinsLeft, joinsRight := fl[i].a + fl[i].n == b.a, i + 1 < |fl| && b.a + b.n == fl[i + 1].a;
    GiveAt(fl, i, b, k);
    if !Within(u, b) {
      var j := if k < i || (k == i && !joinsLeft) then k
               else if joinsLeft && k == i then (if Within(u, fl[i]) then i else i + 1)
               else if joinsLeft then (if joinsRight then k + 1 else k)
               else if joinsRight then k else k - 1;
      assert Within(u, fl[j]);
    }
  }

  lemma GiveNoLess(fl: seq<Block>, i: nat, b: Block, u: nat, j: nat)
    requires Sorted(fl) && Between(fl, i, b) && (Within(u, b) || (j < |fl| && Within(u, fl[j])))
    ensures FreeAt(Give(fl, i, b), u)
  {
    hide Give;
    var joinsLeft, joinsRight := fl[i].a + fl[i].n == b.a, i + 1 < |fl| && b.a + b.n == fl[i + 1].a;
    var k := if Within(u, b) then (if joinsLeft then i else i + 1)
             else if j <= i then j
             else if joinsLeft && joinsRight then j - 1
             else if joinsLeft || joinsRight then j else j + 1;
    GiveAt(fl, i, b, k);
    assert Within(u, Give(fl, i, b)[k]);
  }

  /** Giving a block back frees its units and no others. */
  lemma GiveUnits(fl: seq<Block>, i: nat, b: Block, u: nat)
    requires Sorted(fl) && Between(fl, i, b)
    ensures FreeAt(Give(fl, i, b), u) <==> FreeAt(fl, u) || Within(u, b)
  {
    hide Give;
    if FreeAt(Give(fl, i, b), u) {
      var k :| 0 <= k < |Give(fl, i, b)| && Within(u, Give(fl, i, b)[k]);
      GiveNoMore(fl, i, b, u, k);
    }
    if Within(u, b) {
      GiveNoLess(fl, i, b, u, 0);
    } else if FreeAt(fl, u) {
      var j :| 0 <= j < |fl| && Within(u, fl[j]);
      GiveNoLess(fl, i, b, u, j);
    }
  }

  // ---- The free list, as linked headers ----

  function Next(i: nat, n: nat): nat
    requires i < n
  {
    if i + 1 == n then 0 else i + 1
  }

  /** The header of block `i` records its size and points to the next block, the last to the first. */
  predicate LinkAt(fl: seq<Block>, mem: Memory, i: nat)
    requires i < |fl|
  {
    fl[i].a in mem && mem[fl[i].a] == Header(fl[Next(i, |fl|)].a, fl[i].n)
  }

  ghost predicate Linked(fl: seq<Block>, mem: Memory) {
    forall i {:trigger LinkAt(fl, mem, i)} :: 0 <= i < |fl| ==> LinkAt(fl, mem, i)
  }

  /** The pointer writes of free(), with `p` the block before `b`. */
  function Relink(mem: Memory, p: nat, b: Block): Memory
    requires p in mem && mem[p].ptr in mem
  {
    var q := mem[p].ptr;
    var h := if b.a + b.n == q then Header(mem[q].ptr, b.n + mem[q].size) else Header(q, b.n);
    var mem1 := mem[b.a := h];
    if p + mem1[p].size == b.a then mem1[p := Header(h.ptr, mem1[p].size + h.size)]
    else mem1[p := Header(b.a, mem1[p].size)]
  }

  /** The pointer writes of free() turn the linked list into the one `Give` describes. */
  lemma RelinkLinks(fl: seq<Block>, mem: Memory, i: nat, b: Block)
    requires Sorted(fl) && Linked(fl, mem) && Between(fl, i, b)
    ensures LinkAt(fl, mem, i) && LinkAt(fl, mem, Next(i, |fl|))
    ensures Linked(Give(fl, i, b), Relink(mem, fl[i].a, b))
  {
    assert LinkAt(fl, mem, i) && LinkAt(fl, mem, Next(i, |fl|));
    var fl', mem' := Give(fl, i, b), Relink(mem, fl[i].a, b);
    forall k | 0 <= k < |fl'|
      ensures LinkAt(fl', mem', k)
    {
      RelinkAt(fl, mem, i, b, k);
    }
  }

  lemma RelinkAt(fl: seq<Block>, mem: Memory, i: nat, b: Block, k: nat)
    requires Sorted(fl) && Linked(fl, mem) && Between(fl, i, b) && k < |Give(fl, i, b)|
    requires LinkAt(fl, mem, i) && LinkAt(fl, mem, Next(i, |fl|))
    ensures LinkAt(Give(fl, i, b), Relink(mem, fl[i].a, b), k)
  {
    if fl[i].a + fl[i].n == b.a {
      RelinkAtJoined(fl, mem, i, b, k);
    } else {
      RelinkAtApart(fl, mem, i, b, k);
    }
  }

  lemma LinkedAt(fl: seq<Block>, mem: Memory, i: nat)
    requires Linked(fl, mem) && i < |fl|
    ensures LinkAt(fl, mem, i)
  {}

  lemma GivenIsElsewhere(fl: seq<Block>, i: nat, b: Block, k: nat)
    requires Sorted(fl) && Between(fl, i, b) && k < |fl|
    ensures fl[k].a != b.a && fl[0].a < b.a
  {}

  lemma RelinkAtJoined(fl: seq<Block>, mem: Memory, i: nat, b: Block, k: nat)
    requires Sorted(fl) && Linked(fl, mem) && Between(fl, i, b) && k < |Give(fl, i, b)|
    requires LinkAt(fl, mem, i) && LinkAt(fl, mem, Next(i, |fl|))
    requires fl[i].a + fl[i].n == b.a
    ensures LinkAt(Give(fl, i, b), Relink(mem, fl[i].a, b), k)
  {
    hide Give, Sorted, Linked;
    GiveAt(fl, i, b, k);
    GiveAt(fl, i, b, Next(k, |Give(fl, i, b)|));
    var joinsRight := i + 1 < |fl| && b.a + b.n == fl[i + 1].a;
    var m := if k > i && joinsRight then k + 1 else k;
    LinkedAt(fl, mem, m);
    SameAddress(fl, i, m);
    GivenIsElsewhere(fl, i, b, m);
    GivenIsElsewhere(fl, i, b, Next(i, |fl|));
  }

  lemma RelinkAtApart(fl: seq<Block>, mem: Memory, i: nat, b: Block, k: nat)
    requires Sorted(fl) && Linked(fl, mem) && Between(fl, i, b) && k < |Give(fl, i, b)|
    requires LinkAt(fl, mem, i) && LinkAt(fl, mem, Next(i, |fl|))
    requires fl[i].a + fl[i].n != b.a
    ensures LinkAt(Give(fl, i, b), Relink(mem, fl[i].a, b), k)
  {
    hide Give, Sorted, Linked;
    GiveAt(fl, i, b, k);
    GiveAt(fl, i, b, Next(k, |Give(fl, i, b)|));
    var joinsRight := i + 1 < |fl| && b.a + b.n == fl[i + 1].a;
    var m := if k <= i || joinsRight then k else k - 1;
    LinkedAt(fl, mem, m);
    SameAddress(fl, i, m);
    GivenIsElsewhere(fl, i, b, m);
    GivenIsElsewhere(fl, i, b, Next(i, |fl|));
  }

  // ---- Taking a block ----

  /** The list after `n` units are taken from the end of block `k`. */
  function Take(fl: seq<Block>, k: nat, n: nat): seq<Block>
    requires k < |fl| && n <= fl[k].n
  {
    if fl[k].n == n then fl[..k] + fl[k + 1..] else fl[k := Block(fl[k].a, fl[k].n - n)]
  }

  function Taken(fl: seq<Block>, k: nat, n: nat): (b: Block)
    requires k < |fl| && n <= fl[k].n
    ensures b.n == n && b.a + b.n == fl[k].a + fl[k].n
  {
    Block(fl[k].a + fl[k].n - n, n)
  }

  lemma TakeSorted(fl: seq<Block>, k: nat, n: nat)
    requires Sorted(fl) && 1 <= k < |fl| && 1 <= n <= fl[k].n
    ensures Sorted(Take(fl, k, n))
  {}

  lemma TakeAt(fl: seq<Block>, k: nat, n: nat, j: nat)
    requires k < |fl| && n <= fl[k].n
    ensures |Take(fl, k, n)| == if fl[k].n == n then |fl| - 1 else |fl|
    ensures j < |Take(fl, k, n)| ==>
      Take(fl, k, n)[j] == if fl[k].n == n then (if j < k then fl[j] else fl[j + 1])
                           else if j == k then Block(fl[k].a, fl[k].n - n) else fl[j]
  {}

  /** Taking a block takes its units and no others. */
  lemma TakeUnits(fl: seq<Block>, k: nat, n: nat, u: nat)
    requires Sorted(fl) && 1 <= k < |fl| && 1 <= n <= fl[k].n
    ensures FreeAt(Take(fl, k, n), u) <==> FreeAt(fl, u) && !Within(u, Taken(fl, k, n))
  {
    hide Take;
    var fl' := Take(fl, k, n);
    if FreeAt(fl', u) {
      var j :| 0 <= j < |fl'| && Within(u, fl'[j]);
      TakeAt(fl, k, n, j);
      assert Within(u, fl[if fl[k].n == n && j >= k then j + 1 else j]);
    }
    if FreeAt(fl, u) && !Within(u, Taken(fl, k, n)) {
      var j :| 0 <= j < |fl| && Within(u, fl[j]);
      var j' := if fl[k].n == n && j > k then j - 1 else j;
      TakeAt(fl, k, n, j');
      assert Within(u, fl'[j']);
    }
  }

  lemma TakeWholeLinkAt(fl: seq<Block>, mem: Memory, k: nat, mem': Memory, j: nat)
    requires Sorted(fl) && 1 <= k < |fl| && j < |fl| - 1
    requires LinkAt(fl, mem, k - 1) && LinkAt(fl, mem, k) && LinkAt(fl, mem, if j < k then j else j + 1)
    requires mem' == mem[fl[k - 1].a := Header(mem[fl[k].a].ptr, mem[fl[k - 1].a].size)]
    ensures j < |Take(fl, k, fl[k].n)| && LinkAt(Take(fl, k, fl[k].n), mem', j)
  {
    hide Take, Sorted;
    TakeAt(fl, k, fl[k].n, j);
    TakeAt(fl, k, fl[k].n, Next(j, |fl| - 1));
    SameAddress(fl, k - 1, if j < k then j else j + 1);
  }

  /** The pointer writes of malloc() on a block that fits exactly ... */
  lemma TakeWholeLinks(fl: seq<Block>, mem: Memory, k: nat, mem': Memory)
    requires Sorted(fl) && Linked(fl, mem) && 1 <= k < |fl|
    requires LinkAt(fl, mem, k - 1) && LinkAt(fl, mem, k)
    requires mem' == mem[fl[k - 1].a := Header(mem[fl[k].a].ptr, mem[fl[k - 1].a].size)]
    ensures Linked(Take(fl, k, fl[k].n), mem')
  {
    hide LinkAt, Sorted;
    forall j | 0 <= j < |Take(fl, k, fl[k].n)|
      ensures LinkAt(Take(fl, k, fl[k].n), mem', j)
    {
      TakeWholeLinkAt(fl, mem, k, mem', j);
    }
  }

  /** ... and on a larger one, whose tail becomes the allocated block. */
  lemma TakeTailLinks(fl: seq<Block>, mem: Memory, k: nat, n: nat, mem': Memory, h: Header)
    requires Sorted(fl) && Linked(fl, mem) && 1 <= k < |fl| && 1 <= n < fl[k].n
    requires LinkAt(fl, mem, k)
    requires mem' == mem[fl[k].a := Header(mem[fl[k].a].ptr, fl[k].n - n)][Taken(fl, k, n).a := h]
    ensures Linked(Take(fl, k, n), mem')
  {
    var fl' := Take(fl, k, n);
    forall j | 0 <= j < |fl'|
      ensures LinkAt(fl', mem', j)
    {
      assert LinkAt(fl, mem, j);
    }
  }

  // ---- Allocated blocks ----

  /** Unit `u` belongs to one of the blocks. */
  ghost predicate CoveredAt(blocks: set<Block>, u: nat) {
    exists b :: b in blocks && Within(u, b)
  }

  predicate Apart(b: Block, c: Block) {
    b.a + b.n <= c.a || c.a + c.n <= b.a
  }

  /** Allocated blocks have a header, and overlap neither each other nor any free block. */
  ghost predicate LiveOk(live: set<Block>, fl: seq<Block>, mem: Memory) {
    && (forall b :: b in live ==> b.n >= 1 && b.a > BASE && b.a in mem && mem[b.a].size == b.n)
    && (forall b, c :: b in live && c in live && b != c ==> Apart(b, c))
    && (forall b, i :: b in live && 0 <= i < |fl| ==> Apart(b, fl[i]) && b.a != fl[i].a)
  }

  /** The units sbrk returned are exactly those of the free and the allocated blocks. */
  ghost predicate Conserved(regions: set<Block>, fl: seq<Block>, live: set<Block>) {
    forall u: nat :: CoveredAt(regions, u) <==> FreeAt(fl, u) || CoveredAt(live, u)
  }

  ghost predicate Below(regions: set<Block>, brk: nat) {
    forall r :: r in regions ==> r.a + r.n <= brk
  }

  /** The size in units, header included, of a block for `nbytes` bytes. */
  function Units(nbytes: nat): (n: nat)
    ensures n >= 1 && nbytes <= (n - 1) * HEADER_BYTES < nbytes + HEADER_BYTES
  {
    (nbytes + HEADER_BYTES - 1) / HEADER_BYTES + 1
  }

  /** The same units are free or allocated. */
  ghost predicate SameUnits(fl: seq<Block>, live: set<Block>, fl': seq<Block>, live': set<Block>) {
    forall u: nat :: FreeAt(fl', u) || CoveredAt(live', u) <==> FreeAt(fl, u) || CoveredAt(live, u)
  }

  /** A unit at or above the break is free or allocated, although sbrk has returned none. */
  ghost predicate Overdrawn(regions: set<Block>, brk: nat, fl: seq<Block>, live: set<Block>) {
    Below(regions, brk) && exists u :: u >= brk && (FreeAt(fl, u) || CoveredAt(live, u))
  }

  lemma OverdrawnIsNotConserved(regions: set<Block>, brk: nat, fl: seq<Block>, live: set<Block>)
    requires Overdrawn(regions, brk, fl, live)
    ensures !Conserved(regions, fl, live)
  {
    var u :| u >= brk && (FreeAt(fl, u) || CoveredAt(live, u));
    assert !CoveredAt(regions, u);
  }

  /** The units morecore asks for. */
  function Asked(nu: nat): nat {
    if nu < MIN_GROWTH then MIN_GROWTH else nu
  }

  /** What sbrk is given, as a number of units, when `n` are asked for: the byte count as a signed 32-bit number. */
  function Moved(n: nat): (m: int)
    ensures -INT_UNITS <= m < INT_UNITS && (n - m) % (2 * INT_UNITS) == 0
    ensures m == n <==> n < INT_UNITS
  {
    var low := n % (2 * INT_UNITS);
    if low < INT_UNITS then low else low - 2 * INT_UNITS
  }

  /** sbrk takes the break down to 0 and calls it an error. */
  predicate SbrkFails(brk: nat, n: nat) {
    brk + Moved(n) == 0
  }

  /** sbrk returns a break that is no longer an int, or takes away memory that is in use. */
  predicate SbrkWrecks(brk: nat, n: nat) {
    !SbrkFails(brk, n) && (brk >= INT_UNITS || 0 < brk + Moved(n) < brk)
  }

  /** sbrk has returned one more region, above the old break and of at least `n` units, and of 4096. */
  ghost predicate Grown(before: set<Block>, after: set<Block>, brk: nat, n: nat) {
    exists r :: r !in before && after == before + {r} && r.a >= brk && r.n >= n && r.n >= 4096
  }

  lemma RegionAdded(before: set<Block>, after: set<Block>, brk: nat, n: nat, r: Block)
    requires r !in before && after == before + {r} && r.a >= brk && r.n >= n && r.n >= 4096
    ensures Grown(before, after, brk, n)
  {}

  /** How many links from block `i` to block `t` of a ring of `n`. */
  function Links(i: nat, t: nat, n: nat): nat
    requires i < n && t < n
  {
    if i <= t then t - i else t + n - i
  }

  ghost predicate NoneFits(fl: seq<Block>, n: nat) {
    forall i :: 0 <= i < |fl| ==> fl[i].n < n
  }

  /** None of the blocks the search has passed on its way round to block `t` fits. */
  ghost predicate Searched(fl: seq<Block>, c: nat, t: nat, n: nat)
    requires c < |fl| && t < |fl|
  {
    forall j :: 0 <= j < |fl| && Links(c, t, |fl|) < Links(j, t, |fl|) ==> fl[j].n < n
  }

  /** The block that gave up its tail is the first that fits, going round from `freep`. */
  ghost predicate FirstFit(before: seq<Block>, freep: nat, after: seq<Block>, n: nat) {
    exists s, c :: 0 <= s < |before| && 0 <= c < |before| && before[s].a == freep
                   && before[c].n >= n && Searched(before, c, s, n) && after == Take(before, c, n)
  }

  lemma FoundFit(before: seq<Block>, freep: nat, after: seq<Block>, n: nat, s: nat, c: nat)
    requires s < |before| && c < |before| && before[s].a == freep
    requires before[c].n >= n && Searched(before, c, s, n) && after == Take(before, c, n)
    ensures FirstFit(before, freep, after, n)
  {}

  lemma StartSearch(fl: seq<Block>, s: nat, n: nat)
    requires s < |fl| && n >= 1
    ensures Searched(fl, Next(s, |fl|), s, n)
    ensures NoneFits([], n) && NoneFits([Block(BASE, 0)], n)
  {}

  lemma SearchNext(fl: seq<Block>, c: nat, t: nat, n: nat, searching: bool)
    requires c < |fl| && t < |fl| && fl[c].n < n
    ensures c != t ==> Links(Next(c, |fl|), t, |fl|) < Links(c, t, |fl|)
    ensures searching && Searched(fl, c, t, n) ==> if c == t then NoneFits(fl, n) else Searched(fl, Next(c, |fl|), t, n)
  {}

  lemma FollowLink(fl: seq<Block>, mem: Memory, i: nat)
    requires Linked(fl, mem) && i < |fl|
    ensures fl[i].a in mem && mem[fl[i].a] == Header(fl[Next(i, |fl|)].a, fl[i].n)
  {
    assert LinkAt(fl, mem, i);
  }

  lemma BaseIsEmpty(fl: seq<Block>)
    requires Sorted(fl)
    ensures fl[0].n == 0
  {}

  /** malloc() moves the units of one block from the free to the allocated. */
  lemma TakeConserves(fl: seq<Block>, live: set<Block>, k: nat, n: nat)
    requires Sorted(fl) && 1 <= k < |fl| && 1 <= n <= fl[k].n
    ensures SameUnits(fl, live, Take(fl, k, n), live + {Taken(fl, k, n)})
  {
    forall u: nat
      ensures FreeAt(Take(fl, k, n), u) || CoveredAt(live + {Taken(fl, k, n)}, u) <==>
        FreeAt(fl, u) || CoveredAt(live, u)
    {
      TakeUnits(fl, k, n, u);
      AddCovered(live, Taken(fl, k, n), u);
      if Within(u, Taken(fl, k, n)) {
        assert Within(u, fl[k]);
      }
    }
  }

  /** The new block overlaps no other, and the headers of the others are untouched. */
  lemma LiveAfterTake(live: set<Block>, fl: seq<Block>, mem: Memory, mem': Memory, k: nat, n: nat)
    requires Sorted(fl) && LiveOk(live, fl, mem) && 1 <= k < |fl| && 1 <= n <= fl[k].n
    requires forall a :: a in mem && a != fl[k - 1].a && a != fl[k].a && a != Taken(fl, k, n).a ==>
      a in mem' && mem'[a] == mem[a]
    requires Taken(fl, k, n).a in mem' && mem'[Taken(fl, k, n).a].size == n
    ensures LiveOk(live + {Taken(fl, k, n)}, Take(fl, k, n), mem')
    ensures Taken(fl, k, n) !in live
  {
    hide Take;
    var t := Taken(fl, k, n);
    forall b | b in live
      ensures Apart(b, t) && Apart(t, b) && b.a != t.a && b.a in mem' && mem'[b.a] == mem[b.a]
    {
      assert Apart(b, fl[k]) && b.a != fl[k - 1].a;
    }
    forall b, j | b in live + {t} && 0 <= j < |Take(fl, k, n)|
      ensures Apart(b, Take(fl, k, n)[j]) && b.a != Take(fl, k, n)[j].a
    {
      TakeAt(fl, k, n, j);
    }
  }

  /** A region above the break overlaps no block and holds no header. */
  lemma RegionIsApart(fl: seq<Block>, live: set<Block>, regions: set<Block>, mem: Memory, brk: nat, r: Block)
    requires Sorted(fl) && LiveOk(live, fl, mem) && brk > BASE && r.n >= 1 && r.a >= brk
    requires Conserved(regions, fl, live) && Below(regions, brk)
    ensures r !in live
    ensures forall c :: c in live ==> c.a + c.n <= r.a
    ensures forall i :: 0 <= i < |fl| ==> fl[i].a + fl[i].n <= r.a && fl[i].a != r.a
  {
    forall c | c in live
      ensures c.a + c.n <= r.a
    {
      var u := c.a + c.n - 1;
      assert Within(u, c);
      assert CoveredAt(regions, u);
    }
    forall i | 0 <= i < |fl|
      ensures fl[i].a + fl[i].n <= r.a && fl[i].a != r.a
    {
      if i >= 1 {
        var u := fl[i].a + fl[i].n - 1;
        assert Within(u, fl[i]);
        assert CoveredAt(regions, u);
      }
    }
  }

  /** A fresh region can be treated as an allocated block. */
  lemma AddRegion(fl: seq<Block>, live: set<Block>, regions: set<Block>, mem: Memory, brk: nat, r: Block, g: nat)
    requires Sorted(fl) && Linked(fl, mem) && LiveOk(live, fl, mem) && brk > BASE && r.n >= 1 && r.a >= brk
    requires Conserved(regions, fl, live) && Below(regions, brk)
    ensures r !in live && r !in regions && CoveredAt(live + {r}, r.a + r.n - 1)
    ensures Linked(fl, mem[r.a := Header(g, r.n)])
    ensures LiveOk(live + {r}, fl, mem[r.a := Header(g, r.n)])
    ensures Conserved(regions + {r}, fl, live + {r}) && Below(regions + {r}, r.a + r.n)
  {
    var mem' := mem[r.a := Header(g, r.n)];
    RegionIsApart(fl, live, regions, mem, brk, r);
    forall i | 0 <= i < |fl|
      ensures LinkAt(fl, mem', i)
    {
      assert LinkAt(fl, mem, i);
    }
    forall u: nat
      ensures CoveredAt(live + {r}, u) <==> CoveredAt(live, u) || Within(u, r)
      ensures CoveredAt(regions + {r}, u) <==> CoveredAt(regions, u) || Within(u, r)
    {
      AddCovered(live, r, u);
      AddCovered(regions, r, u);
    }
    assert r in live + {r} && Within(r.a + r.n - 1, r);
  }

  lemma AddCovered(blocks: set<Block>, r: Block, u: nat)
    ensures CoveredAt(blocks + {r}, u) <==> CoveredAt(blocks, u) || Within(u, r)
  {
    if CoveredAt(blocks, u) {
      var b :| b in blocks && Within(u, b);
      assert b in blocks + {r};
    }
    if Within(u, r) {
      assert r in blocks + {r};
    }
  }

  /** The other allocated blocks are untouched by free(). */
  lemma LiveAfterGive(live: set<Block>, fl: seq<Block>, mem: Memory, mem': Memory, i: nat, b: Block)
    requires Sorted(fl) && LiveOk(live, fl, mem) && b in live && Between(fl, i, b)
    requires fl[i].a in mem && mem[fl[i].a].ptr in mem && mem' == Relink(mem, fl[i].a, b)
    ensures LiveOk(live - {b}, Give(fl, i, b), mem')
  {
    var fl' := Give(fl, i, b);
    forall c, k | c in live - {b} && 0 <= k < |fl'|
      ensures Apart(c, fl'[k]) && c.a != fl'[k].a
    {
      LiveApart(live, fl, mem, i, b, c, k);
    }
  }

  /** free() moves the units of one block from the allocated to the free. */
  lemma GiveConserves(fl: seq<Block>, live: set<Block>, i: nat, b: Block)
    requires Sorted(fl) && Between(fl, i, b) && b in live
    ensures SameUnits(fl, live, Give(fl, i, b), live - {b})
    ensures forall u: nat :: FreeAt(Give(fl, i, b), u) <==> FreeAt(fl, u) || Within(u, b)
  {
    assert live - {b} + {b} == live;
    forall u: nat
      ensures FreeAt(Give(fl, i, b), u) <==> FreeAt(fl, u) || Within(u, b)
      ensures FreeAt(Give(fl, i, b), u) || CoveredAt(live - {b}, u) <==> FreeAt(fl, u) || CoveredAt(live, u)
    {
      GiveUnits(fl, i, b, u);
      AddCovered(live - {b}, b, u);
    }
  }

  lemma LiveApart(live: set<Block>, fl: seq<Block>, mem: Memory, i: nat, b: Block, c: Block, k: nat)
    requires Sorted(fl) && LiveOk(live, fl, mem) && b in live && c in live && c != b
    requires Between(fl, i, b) && k < |Give(fl, i, b)|
    ensures Apart(c, Give(fl, i, b)[k]) && c.a != Give(fl, i, b)[k].a
  {
    hide Give;
    GiveAt(fl, i, b, k);
    assert Apart(b, c) || Apart(c, b);
  }

  /** No unit is both free and allocated, and no unit is allocated twice. */
  lemma NoOverlap(live: set<Block>, fl: seq<Block>, mem: Memory, u: nat, b: Block)
    requires Sorted(fl) && LiveOk(live, fl, mem) && b in live && Within(u, b)
    ensures !FreeAt(fl, u)
    ensures forall c :: c in live && Within(u, c) ==> c == b
  {
    forall i | 0 <= i < |fl|
      ensures !Within(u, fl[i])
    {
      assert Apart(b, fl[i]);
    }
    forall c | c in live && Within(u, c)
      ensures c == b
    {
      assert c != b ==> Apart(b, c);
    }
  }

  /** The index of the last free block below `bp`. */
  ghost function LastBelow(fl: seq<Block>, bp: nat, k: nat): (r: nat)
    requires 1 <= k <= |fl| && fl[0].a < bp
    ensures r < k && fl[r].a < bp && forall j :: r < j < k ==> fl[j].a >= bp
  {
    if fl[k - 1].a < bp then k - 1 else LastBelow(fl, bp, k - 1)
  }

  /** How many links from block `i` to the block before `bp`. */
  ghost function Steps(fl: seq<Block>, i: nat, bp: nat): nat
    requires i < |fl| && fl[0].a < bp
  {
    var t := LastBelow(fl, bp, |fl|);
    if i <= t then t - i else t + |fl| - i
  }

  /** What sbrk has returned when the break goes from `brk` to `brk'`. */
  ghost function Returned(regions: set<Block>, brk: nat, brk': nat): set<Block> {
    if brk' > brk then regions + {Block(brk, brk' - brk)} else regions
  }

  lemma ReturnedBelow(regions: set<Block>, brk: nat, brk': nat)
    requires Below(regions, brk) && brk <= brk'
    ensures Below(Returned(regions, brk, brk'), brk')
  {}

  lemma SameConserved(regions: set<Block>, fl: seq<Block>, live: set<Block>, fl': seq<Block>, live': set<Block>)
    requires SameUnits(fl, live, fl', live')
    ensures Conserved(regions, fl, live) ==> Conserved(regions, fl', live')
  {}

  lemma StillOverdrawn(regions: set<Block>, brk: nat, fl: seq<Block>, live: set<Block>, r: Block)
    requires Below(regions, brk) && r.n >= 1 && r.a + r.n > brk && CoveredAt(live, r.a + r.n - 1)
    ensures Overdrawn(regions, brk, fl, live)
  {}

  lemma SameOverdrawn(regions: set<Block>, brk: nat, fl: seq<Block>, live: set<Block>, fl': seq<Block>,
                      live': set<Block>)
    requires Overdrawn(regions, brk, fl, live) && SameUnits(fl, live, fl', live')
    ensures Overdrawn(regions, brk, fl', live')
  {
    var u :| u >= brk && (FreeAt(fl, u) || CoveredAt(live, u));
    assert FreeAt(fl', u) || CoveredAt(live', u);
  }

  lemma Fits(fl: seq<Block>, c: nat, n: nat)
    requires c < |fl| && fl[c].n >= n
    ensures !NoneFits(fl, n)
  {}

  /** What sbrk answers: an error, the old break, or the old break where it is of no use to the caller. */
  datatype Answer = Failed | Break(a: nat) | Wrecked

  /** What malloc answers: no memory, a block, or nothing, because sbrk has wrecked the heap. */
  datatype Grant = Refused | Granted(ap: nat) | Ruined

  class Allocator {
    var mem: Memory
    var freep: nat             // 0 before the first malloc
    var brk: nat               // the process size
    ghost var fl: seq<Block>
    ghost var live: set<Block>
    ghost var regions: set<Block>  // what sbrk has returned

    constructor (brk: nat)
      requires brk > BASE
      ensures Valid() && freep == 0 && this.brk == brk && fl == [] && regions == {}
    {
      this.brk := brk;
      mem, freep := map[], 0;
      fl, live, regions := [], {}, {};
    }

    /** The list is in order and the allocated blocks are apart from it and from each other. */
    ghost predicate Shape()
      reads this
    {
      && (freep == 0 ==> fl == [] && live == {})
      && (freep != 0 ==>
            && Sorted(fl) && Linked(fl, mem) && LiveOk(live, fl, mem)
            && exists i :: 0 <= i < |fl| && fl[i].a == freep)
    }

    /** What holds between calls: besides, the units of both are those sbrk has returned. */
    ghost predicate Valid()
      reads this
    {
      && Shape()
      && brk > BASE
      && Conserved(regions, fl, live)
      && Below(regions, brk)
    }

    /** What sbrk has returned for a request it saw as a smaller one, or none. */
    ghost predicate Short(n: nat, oldRegions: set<Block>, oldBrk: nat)
      reads this
    {
      && brk == oldBrk + (if Moved(n) > 0 then Moved(n) else 0)
      && regions == Returned(oldRegions, oldBrk, brk)
    }

    /** The program raises the break itself. */
    method RaiseBreak(n: nat)
      requires Valid()
      modifies this`brk
      ensures Valid() && brk == old(brk) + n && fl == old(fl)
    {
      brk := brk + n;
    }

    /** The loop of free(): the free block before `bp`. */
    method FindBefore(bp: nat, ghost b: Block) returns (p: nat, ghost i: nat)
      requires Shape() && b in live && b.a == bp
      ensures bp in mem && mem[bp].size == b.n && b.n >= 1
      ensures i < |fl| && p == fl[i].a && Between(fl, i, b)
      ensures p in mem && p < bp && mem[p].ptr != bp
    {
      i :| 0 <= i < |fl| && fl[i].a == freep;
      p := freep;
      assert LinkAt(fl, mem, i);
      while !(bp > p && bp < mem[p].ptr)
        invariant i < |fl| && p == fl[i].a && LinkAt(fl, mem, i)
        decreases Steps(fl, i, bp)
      {
        if p >= mem[p].ptr && (bp > p || bp < mem[p].ptr) {
          break;
        }
        p := mem[p].ptr;
        i := Next(i, |fl|);
        assert LinkAt(fl, mem, i);
      }
    }

    /** The pointer writes of free(). */
    method Splice(p: nat, bp: nat)
      requires p in mem && bp in mem && p != bp && mem[p].ptr in mem && mem[p].ptr != bp
      modifies this`mem
      ensures mem == Relink(old(mem), p, Block(bp, old(mem[bp].size)))
    {
      var q := mem[p].ptr;
      if bp + mem[bp].size == q {
        mem := mem[bp := Header(mem[q].ptr, mem[bp].size + mem[q].size)];
      } else {
        mem := mem[bp := mem[bp].(ptr := q)];
      }
      if p + mem[p].size == bp {
        mem := mem[p := Header(mem[bp].ptr, mem[p].size + mem[bp].size)];
      } else {
        mem := mem[p := mem[p].(ptr := bp)];
      }
    }

    /**
     free(): block `b`, whose payload starts at `ap`, becomes free; afterwards the
     block holding it is the one freep names or the one after.
     */
    method Free(ap: nat, ghost b: Block) returns (ghost k: nat)
      requires Shape() && b in live && ap == b.a + 1
      modifies this`mem, this`freep, this`fl, this`live
      ensures Shape() && freep != 0
      ensures live == old(live) - {b} && SameUnits(old(fl), old(live), fl, live)
      ensures old(Valid()) ==> Valid()
      ensures forall u: nat :: FreeAt(fl, u) <==> old(FreeAt(fl, u)) || Within(u, b)
      ensures k < |fl| && fl[k].n >= b.n && (fl[k].a == freep || (k >= 1 && fl[k - 1].a == freep))
    {
      hide Sorted, Give, FreeAt, CoveredAt, Conserved, Between, LiveOk;
      var bp := ap - 1;
      var p;
      ghost var i;
      p, i := FindBefore(bp, b);
      RelinkLinks(fl, mem, i, b);
      GiveSorted(fl, i, b);
      GiveConserves(fl, live, i, b);
      ghost var mem0 := mem;
      Splice(p, bp);
      freep := p;
      GiveAt(fl, i, b, i);
      GiveAt(fl, i, b, i + 1);
      k := if fl[i].a + fl[i].n == b.a then i else i + 1;
      LiveAfterGive(live, fl, mem0, mem, i, b);
      SameConserved(regions, fl, live, Give(fl, i, b), live - {b});
      fl := Give(fl, i, b);
      live := live - {b};
    }

    /** The sbrk system call on the byte count of `n` units, cut to an int. */
    method Sbrk(n: nat) returns (r: Answer)
      modifies this`brk
      ensures r == if SbrkFails(old(brk), n) then Failed else if SbrkWrecks(old(brk), n) then Wrecked
        else Break(old(brk))
      ensures r.Failed? ==> brk == old(brk)
      ensures r.Break? ==> brk == old(brk) + if Moved(n) > 0 then Moved(n) else 0
    {
      var m, sz := Moved(n), brk;
      if m > 0 {
        brk := sz + m;
      } else if sz + m == 0 {
        return Failed;
      } else if sz + m > 0 {
        brk := sz + m;
      }  // otherwise the unsigned sum lies above the size, which uvmdealloc leaves alone
      if sz >= INT_UNITS || (m < 0 && sz + m > 0) {
        return Wrecked;
      }
      return Break(sz);
    }

    /**
     morecore(): ask the kernel for at least `nu` units and put them on the free list. What
     it asked for goes on the list, whether or not sbrk was told as much.
     */
    method MoreCore(nu: nat) returns (p: nat, wrecked: bool, ghost k: nat)
      requires Valid() && freep != 0 && nu >= 1
      modifies this
      ensures wrecked <==> SbrkWrecks(old(brk), Asked(nu))
      ensures !wrecked ==> (p == 0 <==> SbrkFails(old(brk), Asked(nu)))
      ensures !wrecked && p == 0 ==>
        Valid() && fl == old(fl) && regions == old(regions) && freep == old(freep) && live == old(live)
      ensures !wrecked && p != 0 ==> Shape() && p == freep != 0 && live == old(live)
      ensures !wrecked && p != 0 ==> k < |fl| && fl[k].n >= nu && (fl[k].a == freep || (k >= 1 && fl[k - 1].a == freep))
      ensures !wrecked && p != 0 && nu < INT_UNITS ==>
        Valid() && Block(old(brk), Asked(nu)) !in old(regions) && regions == old(regions) + {Block(old(brk), Asked(nu))}
      ensures !wrecked && p != 0 && nu >= INT_UNITS ==>
        Overdrawn(regions, brk, fl, live) && Short(nu, old(regions), old(brk))
    {
      hide Sorted, Linked, LiveOk, FreeAt, CoveredAt, Conserved, Below, Moved, SameUnits;
      var n := if nu < MIN_GROWTH then MIN_GROWTH else nu;
      k := 0;
      var a := Sbrk(n);
      if !a.Break? {
        return 0, a.Wrecked?, 0;
      }
      var g: nat :| true;  // s.ptr is not written
      ghost var r := Block(a.a, n);
      AddRegion(fl, live, regions, mem, old(brk), r, g);
      mem := mem[a.a := Header(g, n)];
      live := live + {r};
      if n < INT_UNITS {
        regions := regions + {r};
      } else {
        ReturnedBelow(regions, old(brk), brk);
        regions := Returned(regions, old(brk), brk);
        StillOverdrawn(regions, brk, fl, live, r);
      }
      ghost var fl0, live0 := fl, live;
      k := Free(a.a + 1, r);
      if n >= INT_UNITS {
        SameOverdrawn(regions, brk, fl0, live0, fl, live);
      }
      return freep, false, k;
    }

    /**
     More memory for a search that found nothing: it goes on from block `c` and will find
     block `t`, which is that one or the next.
     */
    method Replenish(nunits: nat) returns (p: nat, wrecked: bool, ghost c: nat, ghost t: nat)
      requires Valid() && freep != 0 && nunits >= 1
      modifies this
      ensures wrecked <==> SbrkWrecks(old(brk), Asked(nunits))
      ensures wrecked ==> !SbrkFails(old(brk), Asked(nunits))
      ensures !wrecked ==> (p == 0 <==> SbrkFails(old(brk), Asked(nunits)))
      ensures !wrecked && p == 0 ==>
        Valid() && freep != 0 && fl == old(fl) && regions == old(regions) && live == old(live)
      ensures !wrecked && p != 0 ==> Shape() && freep != 0 && live == old(live)
      ensures !wrecked && p != 0 && nunits < INT_UNITS ==> Valid() && Grown(old(regions), regions, old(brk), nunits)
      ensures !wrecked && p != 0 && nunits >= INT_UNITS ==>
        Overdrawn(regions, brk, fl, live) && Short(nunits, old(regions), old(brk))
      ensures !wrecked && p != 0 ==>
        c < |fl| && t < |fl| && p == fl[c].a == freep && fl[t].n >= nunits && (c == t || t == c + 1)
      ensures !wrecked && p != 0 ==> p in mem && mem[p] == Header(fl[Next(c, |fl|)].a, fl[c].n)
    {
      hide Sorted, Linked, LiveOk, FreeAt, CoveredAt, Conserved, Below, LinkAt, Overdrawn, Moved;
      c := 0;
      p, wrecked, t := MoreCore(nunits);
      if !wrecked && p != 0 {
        c := if fl[t].a == freep then t else t - 1;
        FollowLink(fl, mem, c);
        if nunits < INT_UNITS {
          RegionAdded(old(regions), regions, old(brk), nunits, Block(old(brk), Asked(nunits)));
        }
      }
    }

    /** Cut `nunits` off the end of block `k`, or unlink it if it is just that long. */
    method TakeFrom(prevp: nat, p: nat, nunits: nat, ghost k: nat) returns (a: nat)
      requires Shape() && freep != 0 && 1 <= k < |fl| && 1 <= nunits <= fl[k].n
      requires p == fl[k].a && prevp == fl[k - 1].a
      modifies this`mem, this`freep, this`fl, this`live
      ensures Shape() && freep == prevp && SameUnits(old(fl), old(live), fl, live)
      ensures old(Valid()) ==> Valid()
      ensures old(Overdrawn(regions, brk, fl, live)) ==> !Valid()
      ensures fl == Take(old(fl), k, nunits) && live == old(live) + {Taken(old(fl), k, nunits)}
      ensures a == Taken(old(fl), k, nunits).a && Taken(old(fl), k, nunits) !in old(live)
    {
      hide Sorted, Take, FreeAt, CoveredAt, Conserved, LiveOk, Overdrawn, SameUnits, Below;
      ghost var mem0 := mem;
      assert LinkAt(fl, mem, k - 1) && LinkAt(fl, mem, k);
      if mem[p].size == nunits {
        mem := mem[prevp := mem[prevp].(ptr := mem[p].ptr)];
        a := p;
        TakeWholeLinks(fl, mem0, k, mem);
      } else {
        mem := mem[p := mem[p].(size := mem[p].size - nunits)];
        a := p + mem[p].size;
        var g: nat :| true;  // s.ptr is not written
        mem := mem[a := Header(g, nunits)];
        TakeTailLinks(fl, mem0, k, nunits, mem, Header(g, nunits));
      }
      TakeSorted(fl, k, nunits);
      TakeConserves(fl, live, k, nunits);
      SameConserved(regions, fl, live, Take(fl, k, nunits), live + {Taken(fl, k, nunits)});
      LiveAfterTake(live, fl, mem0, mem, k, nunits);
      TakeAt(fl, k, nunits, k - 1);
      if Overdrawn(regions, brk, fl, live) {
        SameOverdrawn(regions, brk, fl, live, Take(fl, k, nunits), live + {Taken(fl, k, nunits)});
        OverdrawnIsNotConserved(regions, brk, Take(fl, k, nunits), live + {Taken(fl, k, nunits)});
      }
      fl, live := Take(fl, k, nunits), live + {Taken(fl, k, nunits)};
      freep := prevp;
    }

    /**
     malloc(): the first block that fits, going round the list from freep, gives up its
     tail; the kernel is asked only when no block fits. The units on the list and in
     blocks are those sbrk has returned if and only if the request is below 2^31 bytes, or
     a block fits, or sbrk fails.
     */
    method Malloc(nbytes: nat) returns (r: Grant, ghost b: Block)
      requires Valid() && nbytes < UINT_LIMIT
      modifies this
      ensures r.Ruined? <==> NoneFits(old(fl), Units(nbytes)) && SbrkWrecks(old(brk), Asked(Units(nbytes)))
      ensures r.Refused? <==> NoneFits(old(fl), Units(nbytes)) && SbrkFails(old(brk), Asked(Units(nbytes)))
      ensures !r.Ruined? ==> Shape() && freep != 0
      ensures !r.Ruined? ==> (Valid() <==> Units(nbytes) < INT_UNITS || !NoneFits(old(fl), Units(nbytes)) || r.Refused?)
      ensures r.Granted? ==> r.ap == b.a + 1 && b.n == Units(nbytes) && b !in old(live) && live == old(live) + {b}
      ensures r.Refused? ==> live == old(live) && regions == old(regions)
      ensures r.Granted? && NoneFits(old(fl), Units(nbytes)) && Units(nbytes) < INT_UNITS ==>
        Grown(old(regions), regions, old(brk), Units(nbytes))
      ensures r.Granted? && NoneFits(old(fl), Units(nbytes)) && Units(nbytes) >= INT_UNITS ==>
        Short(Units(nbytes), old(regions), old(brk))
      ensures !NoneFits(old(fl), Units(nbytes)) ==>
        r.Granted? && regions == old(regions) && FirstFit(old(fl), old(freep), fl, Units(nbytes))
    {
      hide Sorted, Linked, FreeAt, CoveredAt, Conserved, LiveOk, Take, Below, Searched, NoneFits, Links, FirstFit,
        LinkAt, Grown, Overdrawn, SameUnits, Moved, SbrkFails, SbrkWrecks, Asked, Returned;
      var nunits := (nbytes + HEADER_BYTES - 1) / HEADER_BYTES + 1;
      var prevp := freep;
      if prevp == 0 {
        Initialize();
        prevp := freep;
      }
      ghost var s: nat :| s < |fl| && fl[s].a == freep;  // freep
      ghost var grown := false;
      ghost var t: nat, q: nat := s, s;                  // where the search ends; prevp
      ghost var c: nat := Next(q, |fl|);                 // p
      FollowLink(fl, mem, q);
      StartSearch(fl, s, nunits);
      var p := mem[prevp].ptr;
      while true
        invariant Shape() && freep != 0 && live == old(live)
        invariant q < |fl| && prevp == fl[q].a && c == Next(q, |fl|) && p == fl[c].a && t < |fl|
        invariant !grown ==> Valid() && regions == old(regions) && brk == old(brk)
        invariant !grown ==> fl == (if old(freep) == 0 then [Block(BASE, 0)] else old(fl))
        invariant !grown ==> fl[t].a == freep && (old(freep) != 0 ==> freep == old(freep))
        invariant !grown ==> Searched(fl, c, t, nunits)
        invariant grown ==> fl[t].n >= nunits && (fl[t].a == freep || c == t)
        invariant grown ==> NoneFits(old(fl), nunits)
        invariant grown ==> !SbrkFails(old(brk), Asked(nunits)) && !SbrkWrecks(old(brk), Asked(nunits))
        invariant grown && nunits < INT_UNITS ==> Valid() && Grown(old(regions), regions, old(brk), nunits)
        invariant grown && nunits >= INT_UNITS ==>
            Overdrawn(regions, brk, fl, live) && Short(nunits, old(regions), old(brk))
        decreases !grown, Links(c, t, |fl|)
      {
        FollowLink(fl, mem, c);
        if mem[p].size >= nunits {
          BaseIsEmpty(fl);
          b := Taken(fl, c, nunits);
          ghost var fl0 := fl;
          var a := TakeFrom(prevp, p, nunits, c);
          if !grown {
            Fits(fl0, c, nunits);
            if old(freep) != 0 {
              FoundFit(fl0, old(freep), fl, nunits, t, c);
            }
          }
          return Granted(a + 1), b;
        }
        SameAddress(fl, c, t);
        SearchNext(fl, c, t, nunits, !grown);
        if p == freep {
          var wrecked;
          p, wrecked, c, t := Replenish(nunits);
          if wrecked {
            return Ruined, Block(0, 0);
          }
          if p == 0 {
            return Refused, Block(0, 0);
          }
          grown := true;
        }
        prevp, p := p, mem[p].ptr;
        q, c := c, Next(c, |fl|);
      }
    }

    /** The first malloc: the list is `base` alone. */
    method Initialize()
      requires Valid() && freep == 0
      modifies this`mem, this`freep, this`fl
      ensures Valid() && freep == BASE && fl == [Block(BASE, 0)]
    {
      mem := mem[BASE := Header(BASE, 0)];
      freep := BASE;
      forall u: nat
        ensures FreeAt([Block(BASE, 0)], u) <==> FreeAt(fl, u)
      {
      }
      fl := [Block(BASE, 0)];
    }
  }

  /**
   A first request of 2^31 - 16 bytes, by any program of a smaller size: sbrk is asked for
   -2^31 bytes and leaves the break alone, and malloc hands out 2^27 units nobody has.
   */
  method HalfTheRange(brk: nat) returns (r: Grant, heap: Allocator)
    requires BASE < brk < INT_UNITS
    ensures r.Granted? && heap.Shape() && heap.brk == brk && heap.regions == {} && !heap.Valid()
  {
    heap := new Allocator(brk);
    ghost var b;
    r, b := heap.Malloc(0x7FFF_FFF0);
  }

  /**
   Any request of a program that has raised its break by 2^31 bytes: sbrk answers with a
   number that is no address.
   */
  method AboveTheRange(brk: nat, nbytes: nat) returns (r: Grant)
    requires BASE < brk && nbytes < UINT_LIMIT && Moved(Asked(Units(nbytes))) > 0
    ensures r.Ruined?
  {
    var heap := new Allocator(brk);
    heap.RaiseBreak(INT_UNITS);
    ghost var b;
    r, b := heap.Malloc(nbytes);
  }
}
