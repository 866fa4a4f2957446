/**
 The slab allocator: objects of five sizes cut from whole pages. Each size class
 keeps its pages on three lists, by how many of their objects are free.

 The objects in clients' hands (`live`) are a ghost record; the invariant ties it
 to the pages' own free lists.
 */
module Slab {
  import opened Common

  const HEADER := 48
  const CLASSES := 5

  /** The size of the objects of class `i`. */
  function SizeOf(i: nat): (size: nat)
    requires i < CLASSES
    ensures IsSize(size)
  {
    if i == 0 then 32 else if i == 1 then 64 else if i == 2 then 128 else if i == 3 then 256 else 512
  }

  predicate IsSize(size: nat) {
    size == 32 || size == 64 || size == 128 || size == 256 || size == 512
  }

  function Total(size: nat): nat
    requires size > 0
  {
    (PGSIZE - HEADER) / size
  }

  /** The sizes double from 32 to 512. */
  lemma SizesDouble(i: nat)
    requires i < CLASSES
    ensures SizeOf(0) == 32 && SizeOf(CLASSES - 1) == 512
    ensures i > 0 ==> SizeOf(i) == 2 * SizeOf(i - 1)
  {}

  /** A page is cut into as many objects as fit behind its header. */
  lemma PageIsUsed(size: nat)
    requires size > 0
    ensures HEADER + Total(size) * size <= PGSIZE || Total(size) == 0
    ensures PGSIZE < HEADER + (Total(size) + 1) * size
  {}

  function Slot(p: nat, size: nat, i: nat): nat {
    p + HEADER + i * size
  }

  function PageOf(o: nat): nat {
    o - o % PGSIZE
  }

  // ---- The objects of a page ----

  ghost function Slots(p: nat, size: nat, n: nat): (r: set<nat>)
    ensures forall i: nat :: i < n ==> Slot(p, size, i) in r
    ensures forall o :: o in r ==> exists i: nat :: i < n && o == Slot(p, size, i)
  {
    if n == 0 then {} else Slots(p, size, n - 1) + {Slot(p, size, n - 1)}
  }

  lemma SlotOrder(p: nat, size: nat, i: nat, j: nat)
    requires i < j
    ensures Slot(p, size, i) + size <= Slot(p, size, j)
  {
    assert (j - i - 1) * size >= 0;
  }

  lemma {:induction false} SlotsCount(p: nat, size: nat, n: nat)
    requires size > 0
    ensures |Slots(p, size, n)| == n
  {
    hide Slot;
    if n > 0 {
      SlotsCount(p, size, n - 1);
      forall i: nat | i < n - 1
        ensures Slot(p, size, i) != Slot(p, size, n - 1)
      {
        SlotOrder(p, size, i, n - 1);
      }
    }
  }

  ghost predicate IsSlot(p: nat, size: nat, o: nat) {
    size > 0 && o in Slots(p, size, Total(size))
  }

  lemma SlotBounds(p: nat, size: nat, i: nat)
    requires size > 0 && i < Total(size)
    ensures p + HEADER <= Slot(p, size, i) && Slot(p, size, i) + size <= p + PGSIZE
  {
    SlotOrder(p, size, i, Total(size));
  }

  lemma InPage(p: nat, o: nat)
    requires p % PGSIZE == 0 && p <= o < p + PGSIZE
    ensures PageOf(o) == p
  {}

  /** Objects lie behind the header and within the page. */
  lemma SlotInPage(p: nat, size: nat, o: nat)
    requires p % PGSIZE == 0 && IsSlot(p, size, o)
    ensures p + HEADER <= o && o + size <= p + PGSIZE && PageOf(o) == p
  {
    hide Slot, Total, PageOf;
    var i: nat :| i < Total(size) && o == Slot(p, size, i);
    SlotBounds(p, size, i);
    InPage(p, o);
  }

  lemma SlotsApart(p: nat, size: nat, o: nat, o': nat)
    requires IsSlot(p, size, o) && IsSlot(p, size, o') && o != o'
    ensures o + size <= o' || o' + size <= o
  {
    var i: nat :| i < Total(size) && o == Slot(p, size, i);
    var j: nat :| j < Total(size) && o' == Slot(p, size, j);
    if i < j {
      SlotOrder(p, size, i, j);
    } else {
      SlotOrder(p, size, j, i);
    }
  }

  // ---- Lists ----

  ghost function Elems(s: seq<nat>): set<nat> {
    set x | x in s
  }

  lemma {:induction false} ElemsCount(s: seq<nat>)
    requires Distinct(s)
    ensures |Elems(s)| == |s|
  {
    if s != [] {
      ElemsCount(s[1..]);
      assert Elems(s) == Elems(s[1..]) + {s[0]};
    }
  }

  // ---- The state ----

  /** A page header: object size, number of free objects, and their list. */
  datatype Header = Header(objSize: nat, freeObjs: nat, freelist: seq<nat>)

  type Headers = map<nat, Header>

  datatype Cache = Cache(partial: seq<nat>, full: seq<nat>, empty: seq<nat>,
                         allocCount: nat, freeCount: nat, totalPages: nat)

  ghost predicate HeaderOk(p: nat, h: Header) {
    && p % PGSIZE == 0 && p > 0
    && IsSize(h.objSize)
    && h.freeObjs == |h.freelist|
    && Distinct(h.freelist)
    && forall o :: o in h.freelist ==> IsSlot(p, h.objSize, o)
  }

  /** Each page of the class but one is on the one list that matches its number of free objects. */
  ghost predicate FiledBut(size: nat, c: Cache, h: Headers, except: int)
    requires IsSize(size)
  {
    && Distinct(c.partial) && Distinct(c.full) && Distinct(c.empty)
    && (forall p :: p in c.partial <==>
         p != except && p in h && h[p].objSize == size && 0 < h[p].freeObjs < Total(size))
    && (forall p :: p in c.full <==> p != except && p in h && h[p].objSize == size && h[p].freeObjs == 0)
    && (forall p :: p in c.empty <==> p != except && p in h && h[p].objSize == size && h[p].freeObjs >= Total(size))
    && c.totalPages == |c.partial| + |c.full| + |c.empty|
  }

  /** Page addresses are not negative: no page is excepted. */
  ghost predicate Filed(size: nat, c: Cache, h: Headers)
    requires IsSize(size)
  {
    FiledBut(size, c, h, -1)
  }

  /** The live objects are the slots not on their page's free list. */
  ghost predicate Accounted(size: nat, c: Cache, h: Headers, live: set<nat>) {
    && (forall o: nat :: o in live <==>
      PageOf(o) in h && h[PageOf(o)].objSize == size && IsSlot(PageOf(o), size, o) && o !in h[PageOf(o)].freelist)
    && c.allocCount == c.freeCount + |live|
  }

  ghost predicate CacheOk(size: nat, c: Cache, h: Headers, live: set<nat>)
    requires IsSize(size)
  {
    Filed(size, c, h) && Accounted(size, c, h, live)
  }

  /** On a page whose objects are all free there is no live one. */
  lemma EmptyHasNone(size: nat, c: Cache, h: Headers, live: set<nat>, p: nat, o: nat)
    requires IsSize(size) && Accounted(size, c, h, live) && p in h && HeaderOk(p, h[p]) && h[p].objSize == size
    requires h[p].freeObjs >= Total(size) && PageOf(o) == p
    ensures o !in live
  {
    var all := Slots(p, size, Total(size));
    SlotsCount(p, size, Total(size));
    ElemsCount(h[p].freelist);
    assert Elems(h[p].freelist) <= all;
    Pigeonhole(Elems(h[p].freelist), all);
  }

  lemma {:induction false} Pigeonhole(a: set<nat>, b: set<nat>)
    requires a <= b && |a| >= |b|
    ensures a == b
  {
    if x :| x in a {
      Pigeonhole(a - {x}, b - {x});
    }
  }

  // ---- Taking a page off its list and putting it back ----

  function Removed(s: seq<nat>, i: nat): seq<nat>
    requires i < |s|
  {
    s[..i] + s[i + 1..]
  }

  lemma RemovedElems(s: seq<nat>, i: nat)
    requires Distinct(s) && i < |s|
    ensures Distinct(Removed(s, i))
    ensures forall p :: p in Removed(s, i) <==> p in s && p != s[i]
  {
    forall p
      ensures p in Removed(s, i) <==> p in s && p != s[i]
    {
      if p in s && p != s[i] {
        var j :| 0 <= j < |s| && s[j] == p;
        assert Removed(s, i)[if j < i then j else j - 1] == p;
      }
      if p in Removed(s, i) {
        var j :| 0 <= j < |s| - 1 && Removed(s, i)[j] == p;
        assert s[if j < i then j else j + 1] == p;
      }
    }
  }

  lemma UnfilePartial(size: nat, c: Cache, h: Headers, i: nat)
    requires IsSize(size) && Filed(size, c, h) && i < |c.partial|
    ensures FiledBut(size, c.(partial := Removed(c.partial, i), totalPages := c.totalPages - 1), h, c.partial[i])
  {
    hide Distinct, Total;
    RemovedElems(c.partial, i);
  }

  lemma UnfileFull(size: nat, c: Cache, h: Headers, i: nat)
    requires IsSize(size) && Filed(size, c, h) && i < |c.full|
    ensures FiledBut(size, c.(full := Removed(c.full, i), totalPages := c.totalPages - 1), h, c.full[i])
  {
    hide Distinct, Total;
    TotalPositive(size);
    RemovedElems(c.full, i);
  }

  lemma UnfileEmpty(size: nat, c: Cache, h: Headers)
    requires IsSize(size) && Filed(size, c, h) && c.empty != []
    ensures FiledBut(size, c.(empty := c.empty[1..], totalPages := c.totalPages - 1), h, c.empty[0])
  {
    hide Distinct, Total;
    TotalPositive(size);
    RemovedElems(c.empty, 0);
    assert Removed(c.empty, 0) == c.empty[1..];
  }

  /** A page not on a list goes on the list its new header calls for. */
  ghost function Refiled(size: nat, c: Cache, p: nat, freeObjs: nat): Cache
    requires IsSize(size)
  {
    var c' := c.(totalPages := c.totalPages + 1);
    if freeObjs == 0 then c'.(full := [p] + c.full)
    else if freeObjs < Total(size) then c'.(partial := [p] + c.partial)
    else c'.(empty := [p] + c.empty)
  }

  lemma Pushed(s: seq<nat>, p: nat)
    requires Distinct(s) && p !in s
    ensures Distinct([p] + s)
    ensures forall q :: q in [p] + s <==> q == p || q in s
  {}

  lemma Refile(size: nat, c: Cache, h: Headers, p: nat, hd: Header)
    requires IsSize(size) && FiledBut(size, c, h, p) && hd.objSize == size
    ensures Filed(size, Refiled(size, c, p, hd.freeObjs), h[p := hd])
  {
    hide Distinct, Total;
    Pushed(c.full, p);
    Pushed(c.partial, p);
    Pushed(c.empty, p);
    TotalPositive(size);
  }

  /** A page with some objects free and some not keeps its place. */
  lemma InPlace(size: nat, c: Cache, h: Headers, p: nat, hd: Header)
    requires IsSize(size) && Filed(size, c, h) && p in c.partial && hd.objSize == size && 0 < hd.freeObjs < Total(size)
    ensures Filed(size, c, h[p := hd])
  {
    hide Distinct, Total;
  }

  lemma NewPage(size: nat, c: Cache, h: Headers, p: nat)
    requires IsSize(size) && Filed(size, c, h) && p !in h
    ensures FiledBut(size, c, h, p)
  {
    hide Distinct, Total;
  }

  lemma Discard(size: nat, c: Cache, h: Headers, p: nat)
    requires IsSize(size) && FiledBut(size, c, h, p)
    ensures Filed(size, c, h - {p})
  {
    hide Distinct, Total;
  }

  // ---- The live objects ----

  lemma TakeObject(size: nat, c: Cache, h: Headers, live: set<nat>, p: nat)
    requires IsSize(size) && Accounted(size, c, h, live) && p in h && HeaderOk(p, h[p]) && h[p].objSize == size
    requires h[p].freelist != []
    ensures var o := h[p].freelist[0];
            var hd := Header(size, h[p].freeObjs - 1, h[p].freelist[1..]);
            && o !in live && IsSlot(p, size, o) && PageOf(o) == p
            && HeaderOk(p, hd)
            && Accounted(size, c.(allocCount := c.allocCount + 1), h[p := hd], live + {o})
  {
    hide IsSlot, PageOf;
    var o := h[p].freelist[0];
    var hd := Header(size, h[p].freeObjs - 1, h[p].freelist[1..]);
    assert o in h[p].freelist;
    SlotInPage(p, size, o);
    TakenHeader(p, h[p]);
    forall x: nat
      ensures x in hd.freelist <==> x in h[p].freelist && x != o
    {
      RemovedElems(h[p].freelist, 0);
      assert Removed(h[p].freelist, 0) == hd.freelist;
    }
  }

  lemma TakenHeader(p: nat, h: Header)
    requires HeaderOk(p, h) && h.freelist != []
    ensures HeaderOk(p, h.(freeObjs := h.freeObjs - 1, freelist := h.freelist[1..]))
  {
    hide IsSlot;
  }

  lemma ReturnObject(size: nat, c: Cache, h: Headers, live: set<nat>, o: nat)
    requires IsSize(size) && Accounted(size, c, h, live) && o in live && HeaderOk(PageOf(o), h[PageOf(o)])
    ensures var p := PageOf(o);
            var hd := Header(size, h[p].freeObjs + 1, [o] + h[p].freelist);
            HeaderOk(p, hd) && Accounted(size, c.(freeCount := c.freeCount + 1), h[p := hd], live - {o})
  {
    hide IsSlot, PageOf;
    var p := PageOf(o);
    Pushed(h[p].freelist, o);
  }

  ghost predicate SameBut(h: Headers, h': Headers, p: nat) {
    forall q :: q != p ==> (q in h' <==> q in h) && (q in h ==> h'[q] == h[q])
  }

  /** A step within one class is none of another's business. */
  lemma OtherClass(size: nat, other: nat, c: Cache, h: Headers, live: set<nat>, p: nat, h': Headers)
    requires IsSize(size) && IsSize(other) && size != other && CacheOk(other, c, h, live)
    requires SameBut(h, h', p)
    requires (p in h ==> h[p].objSize == size) && (p in h' ==> h'[p].objSize == size)
    ensures CacheOk(other, c, h', live)
  {
    hide Distinct, Total, IsSlot, PageOf, IsSize;
  }

  lemma TotalPositive(size: nat)
    requires IsSize(size)
    ensures Total(size) >= 7
  {}

  // ---- All classes together ----

  /** Free pages: each once, none a slab page or in a client's hands. */
  ghost predicate PoolOk(pool: seq<nat>, h: Headers, big: set<nat>) {
    && Distinct(pool)
    && (forall p :: p in pool ==> p % PGSIZE == 0 && p > 0 && p !in h && p !in big)
    && (forall p :: p in big ==> p % PGSIZE == 0 && p !in h)
  }

  ghost predicate HeadersOk(h: Headers) {
    forall p :: p in h ==> HeaderOk(p, h[p])
  }

  ghost predicate CachesOk(caches: seq<Cache>, h: Headers, live: seq<set<nat>>) {
    && |caches| == CLASSES && |live| == CLASSES
    && forall i :: 0 <= i < CLASSES ==> CacheOk(SizeOf(i), caches[i], h, live[i])
  }

  lemma SizesDiffer(i: nat, j: nat)
    requires i < CLASSES && j < CLASSES && i != j
    ensures SizeOf(i) != SizeOf(j)
  {}

  lemma StepCaches(caches: seq<Cache>, h: Headers, live: seq<set<nat>>, i: nat, c: Cache, h': Headers, l: set<nat>,
                   p: nat)
    requires CachesOk(caches, h, live) && i < CLASSES && CacheOk(SizeOf(i), c, h', l) && SameBut(h, h', p)
    requires (p in h ==> h[p].objSize == SizeOf(i)) && (p in h' ==> h'[p].objSize == SizeOf(i))
    ensures CachesOk(caches[i := c], h', live[i := l])
  {
    hide CacheOk, SizeOf, SameBut, IsSize;
    forall j | 0 <= j < CLASSES
      ensures CacheOk(SizeOf(j), caches[i := c][j], h', live[i := l][j])
    {
      if j != i {
        SizesDiffer(i, j);
        OtherClass(SizeOf(i), SizeOf(j), caches[j], h, live[j], p, h');
      }
    }
  }

  /** No two live objects overlap, and none overlaps a page header. */
  lemma LiveApart(caches: seq<Cache>, h: Headers, live: seq<set<nat>>, i: nat, o: nat, j: nat, o': nat)
    requires CachesOk(caches, h, live) && HeadersOk(h) && i < CLASSES && j < CLASSES && o in live[i] && o' in live[j]
    requires (i != j || o != o')
    ensures o + SizeOf(i) <= o' || o' + SizeOf(j) <= o
    ensures PageOf(o) + HEADER <= o && o + SizeOf(i) <= PageOf(o) + PGSIZE
  {
    hide IsSlot, Distinct, PageOf, SizeOf, Filed;
    LiveIsSlot(caches, h, live, i, o);
    LiveIsSlot(caches, h, live, j, o');
    if i != j {
      SizesDiffer(i, j);
    }
    if PageOf(o) == PageOf(o') {
      SlotsApart(PageOf(o), SizeOf(i), o, o');
    } else {
      PagesApart(PageOf(o), PageOf(o'));
    }
  }

  lemma LiveIsSlot(caches: seq<Cache>, h: Headers, live: seq<set<nat>>, i: nat, o: nat)
    requires CachesOk(caches, h, live) && HeadersOk(h) && i < CLASSES && o in live[i]
    ensures PageOf(o) in h && h[PageOf(o)].objSize == SizeOf(i) && IsSlot(PageOf(o), SizeOf(i), o)
    ensures PageOf(o) % PGSIZE == 0
    ensures PageOf(o) + HEADER <= o && o + SizeOf(i) <= PageOf(o) + PGSIZE
  {
    hide IsSlot, Distinct, SizeOf, Filed;
    assert CacheOk(SizeOf(i), caches[i], h, live[i]);
    SlotInPage(PageOf(o), SizeOf(i), o);
  }

  lemma PagesApart(p: nat, q: nat)
    requires p % PGSIZE == 0 && q % PGSIZE == 0 && p != q
    ensures p + PGSIZE <= q || q + PGSIZE <= p
  {}

  /** The smallest class whose objects are large enough; None if there is none. */
  method FindCacheIndex(size: int) returns (idx: Option<nat>)
    ensures idx == None <==> size > 512
    ensures idx.Some? ==> idx.value < CLASSES && size <= SizeOf(idx.value) && forall j: nat :: j < idx.value ==>
      SizeOf(j) < size
  {
    var i := 0;
    while i < CLASSES
      invariant 0 <= i <= CLASSES
      invariant forall j: nat :: j < i ==> SizeOf(j) < size
    {
      if size <= SizeOf(i) {
        return Some(i);
      }
      i := i + 1;
    }
    assert SizeOf(4) < size;
    return None;
  }

  /** Cuts a page into objects and chains them in address order. */
  method PageInit(page: nat, size: nat) returns (h: Header)
    requires page % PGSIZE == 0 && page > 0 && IsSize(size)
    ensures HeaderOk(page, h) && h.objSize == size && h.freeObjs == Total(size)
    ensures forall i :: 0 <= i < Total(size) ==> h.freelist[i] == Slot(page, size, i)
  {
    hide Slot, IsSlot, Total;
    var total := Total(size);
    var i := total;
    var free: seq<nat> := [];
    while i > 0
      invariant 0 <= i <= total && |free| == total - i
      invariant forall j :: 0 <= j < |free| ==> free[j] == Slot(page, size, i + j)
    {
      i := i - 1;
      free := [Slot(page, size, i)] + free;
    }
    h := Header(size, total, free);
    FreshHeader(page, h);
  }

  lemma FreshHeader(p: nat, h: Header)
    requires p % PGSIZE == 0 && p > 0 && IsSize(h.objSize) && h.freeObjs == Total(h.objSize) == |h.freelist|
    requires forall i :: 0 <= i < |h.freelist| ==> h.freelist[i] == Slot(p, h.objSize, i)
    ensures HeaderOk(p, h)
  {
    hide Slot;
    forall i, j | 0 <= i < j < |h.freelist|
      ensures h.freelist[i] != h.freelist[j]
    {
      SlotOrder(p, h.objSize, i, j);
    }
  }

  /** A page off its list, with an object to give. */
  ghost predicate Ready(size: nat, base: Cache, h: Headers, live: set<nat>, p: nat)
    requires IsSize(size)
  {
    && FiledBut(size, base, h, p)
    && Accounted(size, base, h, live)
    && p in h && HeaderOk(p, h[p]) && h[p].objSize == size && h[p].freelist != []
  }

  lemma ReadyPartial(size: nat, c: Cache, h: Headers, live: set<nat>)
    requires IsSize(size) && CacheOk(size, c, h, live) && HeadersOk(h) && c.partial != []
    ensures c.totalPages >= 1
    ensures Ready(size, c.(partial := c.partial[1..], totalPages := c.totalPages - 1), h, live, c.partial[0])
  {
    hide IsSlot, Distinct, PageOf, Total;
    UnfilePartial(size, c, h, 0);
    assert Removed(c.partial, 0) == c.partial[1..];
    assert c.partial[0] in c.partial;
  }

  lemma ReadyEmpty(size: nat, c: Cache, h: Headers, live: set<nat>)
    requires IsSize(size) && CacheOk(size, c, h, live) && HeadersOk(h) && c.empty != []
    ensures c.totalPages >= 1
    ensures Ready(size, c.(empty := c.empty[1..], totalPages := c.totalPages - 1), h, live, c.empty[0])
  {
    hide IsSlot, Distinct, PageOf, Total;
    UnfileEmpty(size, c, h);
    TotalPositive(size);
    assert c.empty[0] in c.empty;
  }

  lemma ReadyNew(size: nat, c: Cache, h: Headers, live: set<nat>, p: nat, hd: Header)
    requires IsSize(size) && CacheOk(size, c, h, live) && p !in h
    requires HeaderOk(p, hd) && hd.objSize == size && hd.freeObjs == Total(size)
    requires forall i :: 0 <= i < Total(size) ==> hd.freelist[i] == Slot(p, size, i)
    ensures Ready(size, c, h[p := hd], live, p)
  {
    hide Distinct, PageOf, Total, Slot;
    NewPage(size, c, h, p);
    TotalPositive(size);
    assert FiledBut(size, c, h[p := hd], p);
    forall o: nat | IsSlot(p, size, o)
      ensures o in hd.freelist
    {
      var i: nat :| i < Total(size) && o == Slot(p, size, i);
      assert hd.freelist[i] == o;
    }
  }

  lemma FreeBound(p: nat, h: Header)
    requires HeaderOk(p, h)
    ensures h.freeObjs <= Total(h.objSize)
  {
    var all := Slots(p, h.objSize, Total(h.objSize));
    SlotsCount(p, h.objSize, Total(h.objSize));
    ElemsCount(h.freelist);
    if |Elems(h.freelist)| > |all| {
      Pigeonhole(Elems(h.freelist), all);
    }
  }

  /** What slab_alloc leaves: one object less on the page, and the page on its list. */
  lemma GiveObject(size: nat, base: Cache, h: Headers, live: set<nat>, p: nat)
    requires IsSize(size) && Ready(size, base, h, live, p)
    ensures p in h && h[p].objSize == size && h[p].freelist != [] && h[p].freeObjs == |h[p].freelist|
    ensures var o := h[p].freelist[0];
            var hd := Header(size, h[p].freeObjs - 1, h[p].freelist[1..]);
            && 0 <= hd.freeObjs < Total(size) && o !in live && PageOf(o) == p && IsSlot(p, size, o) && HeaderOk(p, hd)
            && CacheOk(size, Refiled(size, base, p, hd.freeObjs).(allocCount := base.allocCount + 1), h[p := hd],
                 live + {o})
  {
    hide IsSlot, Distinct, PageOf, Total, FiledBut;
    var hd := Header(size, h[p].freeObjs - 1, h[p].freelist[1..]);
    TakeObject(size, base, h, live, p);
    FreeBound(p, h[p]);
    Refile(size, base, h, p, hd);
    SameFiling(size, Refiled(size, base, p, hd.freeObjs),
      Refiled(size, base, p, hd.freeObjs).(allocCount := base.allocCount + 1), h[p := hd]);
  }

  lemma SameFiling(size: nat, c: Cache, c': Cache, h: Headers)
    requires IsSize(size) && Filed(size, c, h)
    requires c'.partial == c.partial && c'.full == c.full && c'.empty == c.empty && c'.totalPages == c.totalPages
    ensures Filed(size, c', h)
  {}

  lemma SameAccounts(size: nat, c: Cache, c': Cache, h: Headers, live: set<nat>)
    requires Accounted(size, c, h, live) && c'.allocCount == c.allocCount && c'.freeCount == c.freeCount
    ensures Accounted(size, c', h, live)
  {}

  /** The class that serves requests of `size` bytes. */
  function ClassOf(size: int): (i: nat)
    requires size <= 512
    ensures i < CLASSES
  {
    if size <= 32 then 0 else if size <= 64 then 1 else if size <= 128 then 2 else if size <= 256 then 3 else 4
  }

  lemma ClassFound(size: int, i: nat)
    requires i < CLASSES && size <= SizeOf(i) && forall j: nat :: j < i ==> SizeOf(j) < size
    ensures size <= 512 && i == ClassOf(size)
  {
    if i > 0 {
      assert SizeOf(i - 1) < size;
    }
  }

  /** Every page is free, a slab page or a client's, as it was in some other order. */
  ghost predicate SamePages(pool: seq<nat>, h: Headers, big: set<nat>, pool': seq<nat>, h': Headers, big': set<nat>) {
    forall p :: p in pool' || p in h' || p in big' <==> p in pool || p in h || p in big
  }

  lemma GivePage(pool: seq<nat>, h: Headers, big: set<nat>, p: nat)
    requires PoolOk(pool, h, big) && p in big && p > 0
    ensures PoolOk([p] + pool, h, big - {p})
  {
    hide Distinct;
    Pushed(pool, p);
  }

  lemma PagesGiven(pool: seq<nat>, h: Headers, big: set<nat>, p: nat)
    requires p in big
    ensures SamePages(pool, h, big, [p] + pool, h, big - {p})
  {}

  lemma ReturnFiled(size: nat, c: Cache, h: Headers, live: set<nat>, o: nat)
    requires IsSize(size) && CacheOk(size, c, h, live) && HeadersOk(h) && o in live
    ensures PageOf(o) in h && h[PageOf(o)].objSize == size
    ensures var p := PageOf(o); HeaderOk(p, Header(size, h[p].freeObjs + 1, [o] + h[p].freelist))
    ensures h[PageOf(o)].freeObjs + 1 <= Total(size)
  {
    hide Distinct, IsSlot, PageOf, FiledBut;
    var p := PageOf(o);
    ReturnObject(size, c, h, live, o);
    FreeBound(p, Header(size, h[p].freeObjs + 1, [o] + h[p].freelist));
  }

  lemma NotUsed(size: nat, c: Cache, h: Headers, live: set<nat>, o: nat)
    requires IsSize(size) && CacheOk(size, c, h, live) && HeadersOk(h) && PageOf(o) !in c.full
    requires PageOf(o) !in c.partial
    ensures o !in live
  {
    hide Distinct, IsSlot, PageOf, HeaderOk;
    if o in live {
      ReturnFiled(size, c, h, live, o);
    }
  }

  /** A used page on which the address is no live object gets a free list that no page can have. */
  lemma Spoils(size: nat, c: Cache, h: Headers, live: set<nat>, o: nat)
    requires IsSize(size) && CacheOk(size, c, h, live) && o !in live && (PageOf(o) in c.full || PageOf(o) in c.partial)
    ensures PageOf(o) in h
    ensures var p := PageOf(o);
            forall hs: Headers :: p in hs && hs[p].objSize == size && hs[p].freelist == [o] + h[p].freelist ==>
              !HeadersOk(hs)
  {
    hide IsSlot, PageOf, Total;
    var p := PageOf(o);
    forall hs: Headers | p in hs && hs[p].objSize == size && hs[p].freelist == [o] + h[p].freelist
      ensures !HeaderOk(p, hs[p])
    {
      var q := [o] + h[p].freelist;
      assert q[0] == o;
      if o in h[p].freelist {
        var k :| 0 <= k < |h[p].freelist| && h[p].freelist[k] == o;
        assert q[k + 1] == o;
      }
    }
  }

  lemma FromFull(size: nat, c: Cache, h: Headers, live: set<nat>, o: nat, k: nat)
    requires IsSize(size) && CacheOk(size, c, h, live) && HeadersOk(h) && o in live && k < |c.full|
    requires c.full[k] == PageOf(o)
    ensures var p := PageOf(o);
            p in h && CacheOk(size,
              c.(full := Removed(c.full, k), partial := [p] + c.partial, freeCount := c.freeCount + 1),
              h[p := Header(size, h[p].freeObjs + 1, [o] + h[p].freelist)], live - {o})
  {
    hide Distinct, IsSlot, PageOf, HeaderOk, Removed, Total;
    var p := PageOf(o);
    assert p in c.full;
    var hd := Header(size, h[p].freeObjs + 1, [o] + h[p].freelist);
    var c' := c.(full := Removed(c.full, k), partial := [p] + c.partial, freeCount := c.freeCount + 1);
    var base := c.(full := Removed(c.full, k), totalPages := c.totalPages - 1);
    TotalPositive(size);
    UnfileFull(size, c, h, k);
    Refile(size, base, h, p, hd);
    SameFiling(size, Refiled(size, base, p, hd.freeObjs), c', h[p := hd]);
    ReturnAccounted(size, c, h, live, o, c');
  }

  lemma FromPartial(size: nat, c: Cache, h: Headers, live: set<nat>, o: nat, k: nat)
    requires IsSize(size) && CacheOk(size, c, h, live) && HeadersOk(h) && o in live && k < |c.partial|
    requires c.partial[k] == PageOf(o)
    requires PageOf(o) in h && h[PageOf(o)].freeObjs + 1 == Total(size)
    ensures var p := PageOf(o);
            CacheOk(size, c.(partial := Removed(c.partial, k), empty := [p] + c.empty, freeCount := c.freeCount + 1),
              h[p := Header(size, h[p].freeObjs + 1, [o] + h[p].freelist)], live - {o})
  {
    hide Distinct, IsSlot, PageOf, HeaderOk, Removed, Total;
    var p := PageOf(o);
    var hd := Header(size, h[p].freeObjs + 1, [o] + h[p].freelist);
    var c' := c.(partial := Removed(c.partial, k), empty := [p] + c.empty, freeCount := c.freeCount + 1);
    var base := c.(partial := Removed(c.partial, k), totalPages := c.totalPages - 1);
    UnfilePartial(size, c, h, k);
    Refile(size, base, h, p, hd);
    SameFiling(size, Refiled(size, base, p, hd.freeObjs), c', h[p := hd]);
    ReturnAccounted(size, c, h, live, o, c');
  }

  lemma StaysPartial(size: nat, c: Cache, h: Headers, live: set<nat>, o: nat)
    requires IsSize(size) && CacheOk(size, c, h, live) && HeadersOk(h) && o in live && PageOf(o) in c.partial
    requires PageOf(o) in h && h[PageOf(o)].freeObjs + 1 < Total(size)
    ensures var p := PageOf(o);
            CacheOk(size, c.(freeCount := c.freeCount + 1),
              h[p := Header(size, h[p].freeObjs + 1, [o] + h[p].freelist)], live - {o})
  {
    hide Distinct, IsSlot, PageOf, HeaderOk, Total;
    var p := PageOf(o);
    var hd := Header(size, h[p].freeObjs + 1, [o] + h[p].freelist);
    InPlace(size, c, h, p, hd);
    SameFiling(size, c, c.(freeCount := c.freeCount + 1), h[p := hd]);
    ReturnAccounted(size, c, h, live, o, c.(freeCount := c.freeCount + 1));
  }

  lemma ReturnAccounted(size: nat, c: Cache, h: Headers, live: set<nat>, o: nat, c': Cache)
    requires IsSize(size) && Accounted(size, c, h, live) && HeadersOk(h) && o in live
    requires c'.allocCount == c.allocCount && c'.freeCount == c.freeCount + 1
    ensures PageOf(o) in h
    ensures var p := PageOf(o); Accounted(size, c', h[p := Header(size, h[p].freeObjs + 1, [o] + h[p].freelist)],
      live - {o})
  {
    hide Distinct, IsSlot, PageOf;
    ReturnObject(size, c, h, live, o);
    var p := PageOf(o);
    SameAccounts(size, c.(freeCount := c.freeCount + 1), c',
      h[p := Header(size, h[p].freeObjs + 1, [o] + h[p].freelist)], live - {o});
  }

  lemma TakePage(pool: seq<nat>, h: Headers, big: set<nat>)
    requires PoolOk(pool, h, big) && pool != []
    ensures PoolOk(pool[1..], h, big + {pool[0]})
    ensures pool[0] % PGSIZE == 0 && pool[0] > 0 && pool[0] !in h && pool[0] !in big && pool[0] !in pool[1..]
  {
    assert pool[0] in pool;
    assert forall p :: p in pool[1..] ==> p in pool;
  }

  lemma PageToSlab(pool: seq<nat>, h: Headers, big: set<nat>, p: nat, hd: Header)
    requires PoolOk(pool, h, big + {p}) && p !in big && p !in pool
    ensures PoolOk(pool, h[p := hd], big)
  {}

  lemma PagesTaken(pool: seq<nat>, h: Headers, big: set<nat>, hd: Header)
    requires pool != []
    ensures SamePages(pool, h, big, pool[1..], h, big + {pool[0]})
    ensures SamePages(pool, h, big, pool[1..], h[pool[0] := hd], big)
  {
    assert pool == [pool[0]] + pool[1..];
  }

  /** A header changes; its page remains a slab page. */
  lemma HeaderStep(pool: seq<nat>, h: Headers, big: set<nat>, p: nat, hd: Header)
    requires PoolOk(pool, h, big) && HeadersOk(h) && p in h && HeaderOk(p, hd)
    ensures PoolOk(pool, h[p := hd], big) && HeadersOk(h[p := hd])
  {
    hide HeaderOk, Distinct;
  }

  lemma PagesKept(pool: seq<nat>, h: Headers, big: set<nat>, pool1: seq<nat>, h1: Headers, big1: set<nat>, p: nat,
                  hd: Header)
    requires SamePages(pool, h, big, pool1, h1, big1) && p in h1
    ensures SamePages(pool, h, big, pool1, h1[p := hd], big1)
  {}

  lemma HeadersNew(h: Headers, p: nat, hd: Header)
    requires HeadersOk(h) && HeaderOk(p, hd)
    ensures HeadersOk(h[p := hd])
  {
    hide HeaderOk;
  }

  lemma PagesSame(pool: seq<nat>, h: Headers, big: set<nat>)
    ensures SamePages(pool, h, big, pool, h, big)
  {}

  lemma PagesCounted(size: nat, c: Cache, h: Headers, live: set<nat>)
    requires IsSize(size) && CacheOk(size, c, h, live)
    ensures c.totalPages == |c.partial| + |c.full| + |c.empty|
  {}

  lemma ShrinkStep(size: nat, c: Cache, h: Headers, live: set<nat>)
    requires IsSize(size) && CacheOk(size, c, h, live) && HeadersOk(h) && c.empty != []
    ensures c.totalPages >= 1 && c.empty[0] in h && h[c.empty[0]].objSize == size
    ensures CacheOk(size, c.(empty := c.empty[1..], totalPages := c.totalPages - 1), h - {c.empty[0]}, live)
    ensures SameBut(h, h - {c.empty[0]}, c.empty[0]) && HeadersOk(h - {c.empty[0]})
  {
    hide Distinct, IsSlot, PageOf, HeaderOk, Total;
    var p := c.empty[0];
    assert p in c.empty;
    UnfileEmpty(size, c, h);
    Discard(size, c.(empty := c.empty[1..], totalPages := c.totalPages - 1), h, p);
    forall o: nat | PageOf(o) == p
      ensures o !in live
    {
      EmptyHasNone(size, c, h, live, p, o);
    }
  }

  lemma PageBack(pool: seq<nat>, h: Headers, big: set<nat>, p: nat)
    requires PoolOk(pool, h, big) && HeadersOk(h) && p in h
    ensures PoolOk([p] + pool, h - {p}, big)
  {
    hide Distinct;
    Pushed(pool, p);
    assert HeaderOk(p, h[p]);
  }

  lemma MovedPage(pool: seq<nat>, h: Headers, big: set<nat>, pool1: seq<nat>, h1: Headers, big1: set<nat>, p: nat)
    requires SamePages(pool, h, big, pool1, h1, big1) && p in h1
    ensures SamePages(pool, h, big, [p] + pool1, h1 - {p}, big1)
  {}

  class Allocator {
    var caches: seq<Cache>
    var headers: Headers
    var pool: seq<nat>
    ghost var live: seq<set<nat>>
    ghost var big: set<nat>

    ghost predicate Valid()
      reads this
    {
      CachesOk(caches, headers, live) && HeadersOk(headers) && PoolOk(pool, headers, big)
    }

    /** A null pointer, a whole page, a live object, or a pointer into no used page of the class. */
    ghost predicate Returnable(ptr: nat, size: int)
      requires |caches| == |live| == CLASSES
      reads this
    {
      || ptr == 0
      || size > 512
      || ptr in live[ClassOf(size)]
      || (PageOf(ptr) !in caches[ClassOf(size)].full && PageOf(ptr) !in caches[ClassOf(size)].partial)
    }

    constructor (pages: seq<nat>)
      requires Distinct(pages) && forall p :: p in pages ==> p % PGSIZE == 0 && p > 0
      ensures Valid() && pool == pages && headers == map[] && live == seq(CLASSES, _ => {}) && big == {}
    {
      caches := seq(CLASSES, _ => Cache([], [], [], 0, 0, 0));
      headers := map[];
      pool := pages;
      live := seq(CLASSES, _ => {});
      big := {};
    }

    /** An object of the smallest class that fits, or a whole page; None only if no memory is left for it. */
    method Alloc(size: int) returns (r: Option<nat>)
      requires Valid()
      modifies this
      ensures Valid() && SamePages(old(pool), old(headers), old(big), pool, headers, big)
      ensures size > 512 ==> live == old(live) && (r == None <==> old(pool) == [])
      ensures size > 512 && r.Some? ==> r.value in old(pool) && big == old(big) + {r.value}
      ensures size <= 512 ==> big == old(big)
      ensures size <= 512 ==>
        (r == None <==>
          old(pool) == [] && old(caches[ClassOf(size)].partial) == [] && old(caches[ClassOf(size)].empty) == [])
      ensures size <= 512 && r.Some? ==>
        && r.value !in old(live)[ClassOf(size)]
        && live == old(live)[ClassOf(size) := old(live)[ClassOf(size)] + {r.value}]
      ensures r == None ==> live == old(live) && caches == old(caches) && headers == old(headers)
      ensures size <= 512 && r.Some? ==>
        var c := old(caches[ClassOf(size)]);
        && pool == (if c.partial == [] && c.empty == [] then old(pool)[1..] else old(pool))
        && PageOf(r.value) ==
             (if c.partial != [] then c.partial[0] else if c.empty != [] then c.empty[0] else old(pool)[0])
    {
      hide CacheOk, HeaderOk, HeadersOk, PoolOk, Accounted, FiledBut, IsSlot, Distinct, Ready, SizeOf, SamePages,
        PageOf;
      PagesSame(pool, headers, big);
      var idx := FindCacheIndex(size);
      if idx == None {
        if pool == [] {
          return None;
        }
        r := Some(pool[0]);
        TakePage(pool, headers, big);
        PagesTaken(pool, headers, big, Header(0, 0, []));
        pool := pool[1..];
        big := big + {r.value};
        return;
      }
      var i := idx.value;
      ClassFound(size, i);
      var s := SizeOf(i);
      var c := caches[i];
      ghost var base := c;
      ghost var h := headers;
      if c.partial == [] {
        if c.empty != [] {
          ReadyEmpty(s, c, headers, live[i]);
          base := c.(empty := c.empty[1..], totalPages := c.totalPages - 1);
          c := c.(empty := c.empty[1..], partial := [c.empty[0]] + c.partial);
        } else {
          if pool == [] {
            return None;
          }
          var page := pool[0];
          TakePage(pool, headers, big);
          var hd := PageInit(page, s);
          ReadyNew(s, c, headers, live[i], page, hd);
          PageToSlab(pool[1..], headers, big, page, hd);
          PagesTaken(pool, headers, big, hd);
          HeadersNew(headers, page, hd);
          pool := pool[1..];
          headers := headers[page := hd];
          c := c.(partial := [page] + c.partial, totalPages := c.totalPages + 1);
        }
      } else {
        ReadyPartial(s, c, headers, live[i]);
        base := c.(partial := c.partial[1..], totalPages := c.totalPages - 1);
      }
      var sp := c.partial[0];
      GiveObject(s, base, headers, live[i], sp);
      assert c.partial == [sp] + base.partial;
      var o := headers[sp].freelist[0];
      var hd := Header(s, headers[sp].freeObjs - 1, headers[sp].freelist[1..]);
      HeaderStep(pool, headers, big, sp, hd);
      PagesKept(old(pool), old(headers), old(big), pool, headers, big, sp, hd);
      headers := headers[sp := hd];
      if hd.freeObjs == 0 {
        c := c.(partial := c.partial[1..], full := [sp] + c.full);
      }
      c := c.(allocCount := c.allocCount + 1);
      StepCaches(caches, h, live, i, c, headers, live[i] + {o}, sp);
      caches := caches[i := c];
      live := live[i := live[i] + {o}];
      return Some(o);
    }

    /**
     Takes back a live object of the class, or a whole page; a pointer into no used page of
     the class is ignored. Any other pointer, freed twice or never handed out, spoils the
     page it points into: the allocator is in order afterwards exactly if it was none of those.
     */
    method Free(ptr: nat, size: int)
      requires Valid()
      requires ptr != 0 && size > 512 ==> ptr in big
      modifies this
      ensures Valid() <==> old(Returnable(ptr, size))
      ensures old(Returnable(ptr, size)) ==> SamePages(old(pool), old(headers), old(big), pool, headers, big)
      ensures ptr != 0 && size > 512 ==> live == old(live) && big == old(big) - {ptr} && pool == [ptr] + old(pool)
      ensures size <= 512 || ptr == 0 ==> big == old(big) && pool == old(pool) && headers.Keys == old(headers.Keys)
      ensures ptr != 0 && size <= 512 && ptr in old(live)[ClassOf(size)] ==>
        live == old(live)[ClassOf(size) := old(live)[ClassOf(size)] - {ptr}]
      ensures ptr == 0 || (size <= 512 && old(Returnable(ptr, size)) && ptr !in old(live)[ClassOf(size)]) ==>
        live == old(live) && caches == old(caches) && headers == old(headers)
    {
      hide CacheOk, HeaderOk, HeadersOk, PoolOk, Accounted, FiledBut, IsSlot, Distinct, Ready, Total, SizeOf, PageOf,
        SamePages;
      PagesSame(pool, headers, big);
      if ptr == 0 {
        return;
      }
      var idx := FindCacheIndex(size);
      if idx == None {
        GivePage(pool, headers, big, ptr);
        PagesGiven(pool, headers, big, ptr);
        pool := [ptr] + pool;
        big := big - {ptr};
        return;
      }
      var i := idx.value;
      ClassFound(size, i);
      var s := SizeOf(i);
      var c := caches[i];
      var page := PageOf(ptr);
      var k := 0;
      while k < |c.full| && c.full[k] != page
        invariant 0 <= k <= |c.full| && page !in c.full[..k]
      {
        k := k + 1;
      }
      var j := 0;
      if k == |c.full| {
        while j < |c.partial| && c.partial[j] != page
          invariant 0 <= j <= |c.partial| && page !in c.partial[..j]
        {
          j := j + 1;
        }
        if j == |c.partial| {
          NotUsed(s, c, headers, live[i], ptr);
          return;
        }
      }
      ghost var fine := ptr in live[i];
      if fine {
        ReturnFiled(s, c, headers, live[i], ptr);
      } else {
        Spoils(s, c, headers, live[i], ptr);
      }
      var hd := Header(s, headers[page].freeObjs + 1, [ptr] + headers[page].freelist);
      if k < |c.full| {
        if fine { FromFull(s, c, headers, live[i], ptr, k); }
        c := c.(full := Removed(c.full, k), partial := [page] + c.partial);
      } else if hd.freeObjs == Total(s) {
        if fine { FromPartial(s, c, headers, live[i], ptr, j); }
        c := c.(partial := Removed(c.partial, j), empty := [page] + c.empty);
      } else if fine {
        StaysPartial(s, c, headers, live[i], ptr);
      }
      c := c.(freeCount := c.freeCount + 1);
      if fine {
        StepCaches(caches, headers, live, i, c, headers[page := hd], live[i] - {ptr}, page);
        HeaderStep(pool, headers, big, page, hd);
        PagesKept(old(pool), old(headers), old(big), pool, headers, big, page, hd);
      }
      headers := headers[page := hd];
      caches := caches[i := c];
      live := live[i := live[i] - {ptr}];
    }

    /** Gives every page without live objects back. */
    method Shrink() returns (freed: nat)
      requires Valid()
      modifies this
      ensures Valid() && SamePages(old(pool), old(headers), old(big), pool, headers, big)
      ensures live == old(live) && big == old(big) && |pool| == |old(pool)| + freed
      ensures forall i :: 0 <= i < CLASSES ==>
        caches[i] == old(caches[i]).(empty := [], totalPages := |old(caches[i]).partial| + |old(caches[i]).full|)
    {
      hide CacheOk, HeaderOk, HeadersOk, PoolOk, IsSize, SizeOf, PageOf, SamePages;
      freed := 0;
      var i := 0;
      PagesSame(pool, headers, big);
      while i < CLASSES
        invariant 0 <= i <= CLASSES
        invariant Valid() && SamePages(old(pool), old(headers), old(big), pool, headers, big)
        invariant live == old(live) && big == old(big) && |pool| == |old(pool)| + freed
        invariant forall j :: 0 <= j < i ==>
          caches[j] == old(caches[j]).(empty := [], totalPages := |old(caches[j]).partial| + |old(caches[j]).full|)
        invariant forall j :: i <= j < CLASSES ==> caches[j] == old(caches)[j]
      {
        ghost var others := caches;
        while caches[i].empty != []
          invariant Valid() && SamePages(old(pool), old(headers), old(big), pool, headers, big)
          invariant live == old(live) && big == old(big) && |pool| == |old(pool)| + freed
          invariant caches == others[i := caches[i]]
          invariant caches[i] == others[i].(empty := caches[i].empty, totalPages := caches[i].totalPages)
          decreases |caches[i].empty|
        {
          var c := caches[i];
          var sp := c.empty[0];
          ShrinkStep(SizeOf(i), c, headers, live[i]);
          PageBack(pool, headers, big, sp);
          MovedPage(old(pool), old(headers), old(big), pool, headers, big, sp);
          StepCaches(caches, headers, live, i, c.(empty := c.empty[1..], totalPages := c.totalPages - 1),
            headers - {sp}, live[i], sp);
          assert live[i := live[i]] == live;
          caches := caches[i := c.(empty := c.empty[1..], totalPages := c.totalPages - 1)];
          pool := [sp] + pool;
          headers := headers - {sp};
          freed := freed + 1;
        }
        PagesCounted(SizeOf(i), caches[i], headers, live[i]);
        i := i + 1;
      }
    }
  }

  /** A page with one live object is neither full nor empty. */
  lemma OneLiveIsPartial(size: nat, c: Cache, h: Headers, live: set<nat>, o: nat)
    requires IsSize(size) && CacheOk(size, c, h, live) && HeadersOk(h) && live == {o}
    ensures PageOf(o) in c.partial && PageOf(o) in h
  {
    hide Distinct, PageOf, Slot;
    var p := PageOf(o);
    assert o in live;
    assert HeaderOk(p, h[p]);
    if h[p].freeObjs == 0 {
      FullHasTwo(size, c, h, live, p);
    }
    if h[p].freeObjs >= Total(size) {
      EmptyHasNone(size, c, h, live, p, o);
    }
  }

  lemma FullHasTwo(size: nat, c: Cache, h: Headers, live: set<nat>, p: nat)
    requires IsSize(size) && Accounted(size, c, h, live) && p in h && h[p].objSize == size && h[p].freelist == []
    requires p % PGSIZE == 0
    ensures Slot(p, size, 0) in live && Slot(p, size, 1) in live && Slot(p, size, 0) != Slot(p, size, 1)
  {
    hide PageOf;
    TwoSlots(p, size);
    SlotInPage(p, size, Slot(p, size, 0));
    SlotInPage(p, size, Slot(p, size, 1));
  }

  lemma TwoSlots(p: nat, size: nat)
    requires IsSize(size)
    ensures IsSlot(p, size, Slot(p, size, 0)) && IsSlot(p, size, Slot(p, size, 1))
    ensures Slot(p, size, 0) != Slot(p, size, 1)
  {}

  /** Two objects are allocated, and one of them is freed twice. */
  method FreesTwice() returns (m: Allocator)
    ensures !m.Valid()
  {
    hide CacheOk, HeadersOk, PoolOk, Total, PageOf;
    m := new Allocator([4096]);
    var a := m.Alloc(32);
    OneClass(m.caches, m.headers, m.live, a.value);
    var b := m.Alloc(32);
    InOnePage(m.caches, m.headers, m.live, a.value);
    m.Free(a.value, 32);
    InOnePage(m.caches, m.headers, m.live, b.value);
    OneClass(m.caches, m.headers, m.live, b.value);
    m.Free(a.value, 32);
  }

  lemma OneClass(caches: seq<Cache>, h: Headers, live: seq<set<nat>>, o: nat)
    requires CachesOk(caches, h, live) && HeadersOk(h) && live[0] == {o}
    ensures PageOf(o) in caches[0].partial
  {
    hide CacheOk, HeadersOk, PageOf;
    OneLiveIsPartial(32, caches[0], h, live[0], o);
  }

  lemma InOnePage(caches: seq<Cache>, h: Headers, live: seq<set<nat>>, o: nat)
    requires CachesOk(caches, h, live) && o in live[0] && forall p :: p in h ==> p == 4096
    ensures PageOf(o) == 4096 && o != 0
  {
    hide IsSlot;
    assert CacheOk(32, caches[0], h, live[0]);
  }
}
