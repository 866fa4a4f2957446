/**
 Copy-on-write memory: page frames with reference counts, per-processor free
 lists, and the page tables of all processes.

 A page table entry is keyed by process and virtual page; module PageTable shows
 that the three-level trees behave as such a flat map. `View` is what the
 processes see: the contents of each mapped page. Every operation is specified by
 what it does to `View`, as if fork copied memory at once; sharing shows nowhere.
 */
module Cow {
  import opened Common

  const NCPU := 8

  type Page = seq<Byte>
  type Frame = nat

  datatype Key = Key(pid: nat, vpn: nat)

  /** PTE_W, PTE_F (the copy-on-write mark) and PTE_U of a valid entry. */
  datatype Pte = Pte(frame: Frame, w: bool, f: bool, u: bool)

  type PageTables = map<Key, Pte>
  type Memory = map<Frame, Page>

  /** memset of a whole page. */
  function Filled(b: Byte): (page: Page)
    ensures |page| == PGSIZE && forall i :: 0 <= i < PGSIZE ==> page[i] == b
  {
    seq(PGSIZE, _ => b)
  }

  // ---- Who maps a frame ----

  ghost function Maps(pt: PageTables, f: Frame): (r: set<Key>)
    ensures forall k :: k in r <==> k in pt && pt[k].frame == f
  {
    set k | k in pt && pt[k].frame == f
  }

  /** What reference count frame `f` ought to have: its mappings, and one if the kernel uses it. */
  ghost function Uses(pt: PageTables, kernel: set<Frame>, f: Frame): nat {
    |Maps(pt, f)| + if f in kernel then 1 else 0
  }

  lemma MapsAdd(pt: PageTables, k: Key, e: Pte, f: Frame)
    requires k !in pt
    ensures Maps(pt[k := e], f) == if e.frame == f then Maps(pt, f) + {k} else Maps(pt, f)
    ensures |Maps(pt[k := e], f)| == |Maps(pt, f)| + if e.frame == f then 1 else 0
  {}

  lemma MapsRemove(pt: PageTables, k: Key, f: Frame)
    requires k in pt
    ensures Maps(pt - {k}, f) == if pt[k].frame == f then Maps(pt, f) - {k} else Maps(pt, f)
    ensures |Maps(pt - {k}, f)| == |Maps(pt, f)| - if pt[k].frame == f then 1 else 0
  {}

  /** Changing the permissions of an entry does not change who maps what. */
  lemma MapsSameFrame(pt: PageTables, k: Key, e: Pte, f: Frame)
    requires k in pt && e.frame == pt[k].frame
    ensures Maps(pt[k := e], f) == Maps(pt, f)
  {}

  // ---- Free lists ----

  ghost predicate OnList(free: seq<seq<Frame>>, f: Frame) {
    exists c, i :: 0 <= c < |free| && 0 <= i < |free[c]| && free[c][i] == f
  }

  /** A frame is on at most one list, and there once. */
  ghost predicate OnceEach(free: seq<seq<Frame>>) {
    forall c, i, d, j :: 0 <= c < |free| && 0 <= i < |free[c]| && 0 <= d < |free| && 0 <= j < |free[d]| ==>
      free[c][i] == free[d][j] ==> c == d && i == j
  }

  /** What is on the list after the first frame is what was at the next place. */
  lemma PopAt(free: seq<seq<Frame>>, c: nat, d: nat, j: nat)
    requires c < |free| && free[c] != [] && d < |free| && j < |free[c := free[c][1..]][d]|
    ensures free[c := free[c][1..]][d][j] == free[d][if d == c then j + 1 else j]
  {}

  lemma PopOnce(free: seq<seq<Frame>>, c: nat)
    requires OnceEach(free) && c < |free| && free[c] != []
    ensures OnceEach(free[c := free[c][1..]])
  {
    var free' := free[c := free[c][1..]];
    forall a, i, d, j | 0 <= a < |free'| && 0 <= i < |free'[a]| && 0 <= d < |free'| && 0 <= j < |free'[d]| &&
                        free'[a][i] == free'[d][j]
      ensures a == d && i == j
    {
      PopAt(free, c, a, i);
      PopAt(free, c, d, j);
    }
  }

  lemma PopFree(free: seq<seq<Frame>>, c: nat, f: Frame)
    requires OnceEach(free) && c < |free| && free[c] != []
    ensures OnceEach(free[c := free[c][1..]])
    ensures OnList(free, free[c][0])
    ensures OnList(free[c := free[c][1..]], f) <==> OnList(free, f) && f != free[c][0]
  {
    var free' := free[c := free[c][1..]];
    PopOnce(free, c);
    if OnList(free', f) {
      var d, j :| 0 <= d < |free'| && 0 <= j < |free'[d]| && free'[d][j] == f;
      PopAt(free, c, d, j);
      assert free[d][if d == c then j + 1 else j] == f;
      assert f != free[c][0];
    }
    if OnList(free, f) && f != free[c][0] {
      var d, j :| 0 <= d < |free| && 0 <= j < |free[d]| && free[d][j] == f;
      PopAt(free, c, d, if d == c then j - 1 else j);
    }
  }

  lemma PushOnce(free: seq<seq<Frame>>, c: nat, g: Frame)
    requires OnceEach(free) && c < |free| && !OnList(free, g)
    ensures OnceEach(free[c := [g] + free[c]])
  {}

  lemma PushList(free: seq<seq<Frame>>, c: nat, g: Frame, f: Frame)
    requires c < |free|
    ensures OnList(free[c := [g] + free[c]], f) <==> OnList(free, f) || f == g
  {
    var free' := free[c := [g] + free[c]];
    if OnList(free', f) {
      var d, j :| 0 <= d < |free'| && 0 <= j < |free'[d]| && free'[d][j] == f;
      assert (d == c && j == 0) || free[d][if d == c then j - 1 else j] == f;
    }
    if OnList(free, f) {
      var d, j :| 0 <= d < |free| && 0 <= j < |free[d]| && free[d][j] == f;
      assert free'[d][if d == c then j + 1 else j] == f;
    }
    assert free'[c][0] == g;
  }

  // ---- The state ----

  /**
   `frames` are the frames the allocator manages; `kernel` those held by the kernel:
   page tables, trap frames, in transit. `lost` counts, for each frame, the uses that
   ended without a kfree.
   */
  datatype Sys = Sys(
    frames: set<Frame>,
    pt: PageTables,
    mem: Memory,
    ref: map<Frame, int>,
    free: seq<seq<Frame>>,
    kernel: set<Frame>,
    lost: map<Frame, nat>)

  /** Every entry maps a frame of the pool, and is either writable or marked copy-on-write. */
  ghost predicate Entries(s: Sys) {
    && |s.free| == NCPU
    && s.kernel <= s.frames
    && (forall f :: f in s.kernel ==> f in s.lost && s.lost[f] == 0)
    && (forall k :: k in s.pt ==> s.pt[k].frame in s.frames && s.pt[k].frame !in s.kernel && s.pt[k].w != s.pt[k].f)
  }

  /** A writable page is not shared. */
  ghost predicate Private(s: Sys) {
    forall k :: k in s.pt && s.pt[k].w ==> Maps(s.pt, s.pt[k].frame) == {k}
  }

  ghost predicate Pages(s: Sys) {
    forall f :: f in s.frames ==> f in s.mem && |s.mem[f]| == PGSIZE
  }

  /** Every reference count is the number of uses and of those lost ... */
  ghost predicate Counted(s: Sys) {
    forall f :: f in s.frames ==> f in s.ref && f in s.lost && s.ref[f] == Uses(s.pt, s.kernel, f) + s.lost[f]
  }

  /** ... and the frames of count zero are those on the free lists. */
  ghost predicate Listed(s: Sys) {
    && OnceEach(s.free)
    && forall f :: OnList(s.free, f) <==> f in s.frames && f in s.ref && s.ref[f] == 0
  }

  ghost predicate Good(s: Sys) {
    Entries(s) && Private(s) && Pages(s) && Counted(s) && Listed(s)
  }

  /** What the processes see. */
  ghost function View(s: Sys): (v: map<Key, Page>)
    requires Entries(s) && Pages(s)
    ensures v.Keys == s.pt.Keys
  {
    map k | k in s.pt :: s.mem[s.pt[k].frame]
  }

  // ---- The steps ----

  /** kalloc: a free frame comes into the kernel's hands. */
  ghost function Took(s: Sys, c: nat, page: Page): Sys
    requires c < |s.free| && s.free[c] != []
  {
    var g := s.free[c][0];
    s.(free := s.free[c := s.free[c][1..]], ref := s.ref[g := 1], mem := s.mem[g := page], kernel := s.kernel + {g})
  }

  /** kfree: one use less, and back to the free list when that was the last. */
  ghost function Freed(s: Sys, g: Frame, c: nat, junk: Page): Sys
    requires g in s.ref && c < |s.free|
  {
    if s.ref[g] == 1
    then s.(ref := s.ref[g := 0], mem := s.mem[g := junk], free := s.free[c := [g] + s.free[c]])
    else s.(ref := s.ref[g := s.ref[g] - 1])
  }

  lemma TakeFrame(s: Sys, c: nat, page: Page)
    requires Good(s) && c < NCPU && s.free[c] != [] && |page| == PGSIZE
    ensures Good(Took(s, c, page)) && View(Took(s, c, page)) == View(s)
    ensures s.free[c][0] in s.frames && s.free[c][0] !in s.kernel
  {
    hide OnceEach, OnList;
    var s' := Took(s, c, page);
    var g := s.free[c][0];
    PopFree(s.free, c, g);
    assert OnList(s.free, g);
    assert Maps(s.pt, g) == {} && g !in s.kernel;
    forall k | k in s.pt
      ensures s.pt[k].frame != g
    {
      assert k in Maps(s.pt, s.pt[k].frame);
    }
    forall f
      ensures OnList(s'.free, f) <==> f in s'.frames && f in s'.ref && s'.ref[f] == 0
    {
      PopFree(s.free, c, f);
    }
  }

  /** A frame nobody uses any more returns to a list. */
  lemma FreedListed(s: Sys, g: Frame, c: nat, junk: Page)
    requires Listed(s) && g in s.frames && g in s.ref && s.ref[g] >= 1 && c < |s.free|
    ensures Listed(Freed(s, g, c, junk))
  {
    hide OnceEach, OnList;
    var s' := Freed(s, g, c, junk);
    if s.ref[g] == 1 {
      assert !OnList(s.free, g);
      PushOnce(s.free, c, g);
      forall f
        ensures OnList(s'.free, f) <==> f in s'.frames && f in s'.ref && s'.ref[f] == 0
      {
        PushList(s.free, c, g, f);
      }
    } else {
      forall f
        ensures OnList(s'.free, f) <==> f in s'.frames && f in s'.ref && s'.ref[f] == 0
      {
        assert OnList(s'.free, f) == OnList(s.free, f);
      }
    }
  }

  lemma MappedIsCounted(s: Sys, k: Key)
    requires Entries(s) && Counted(s) && k in s.pt
    ensures s.pt[k].frame in s.ref && s.ref[s.pt[k].frame] >= 1
    ensures s.ref[s.pt[k].frame] == 1 ==> Maps(s.pt, s.pt[k].frame) == {k}
  {
    var m := Maps(s.pt, s.pt[k].frame);
    assert k in m;
    assert m == {k} + (m - {k});
  }

  /** kfree of a frame the kernel holds. */
  lemma GiveBack(s: Sys, g: Frame, c: nat, junk: Page)
    requires Good(s) && g in s.kernel && s.ref[g] == 1 && c < NCPU && |junk| == PGSIZE
    ensures var s' := Freed(s, g, c, junk).(kernel := s.kernel - {g});
            Good(s') && View(s') == View(s)
  {
    hide Listed;
    FreedListed(s, g, c, junk);
    var s0 := Freed(s, g, c, junk);
    var s' := s0.(kernel := s.kernel - {g});
    SameLists(s0, s');
  }

  lemma SameLists(s: Sys, s': Sys)
    requires Listed(s) && s'.free == s.free && s'.frames == s.frames && s'.ref.Keys == s.ref.Keys
    requires forall f :: f in s.frames && f in s.ref ==> (s'.ref[f] == 0 <==> s.ref[f] == 0)
    ensures Listed(s')
  {
    hide OnceEach, OnList;
  }

  // mappages of a frame in the kernel's hands: the page appears with the frame's contents.

  ghost function Mapped(s: Sys, k: Key, g: Frame, u: bool): Sys {
    s.(pt := s.pt[k := Pte(g, true, false, u)], kernel := s.kernel - {g})
  }

  lemma UnmappedIfKernel(s: Sys, g: Frame)
    requires Entries(s) && g in s.kernel
    ensures Maps(s.pt, g) == {}
  {}

  lemma MapCounted(s: Sys, k: Key, g: Frame, u: bool)
    requires Entries(s) && Counted(s) && k !in s.pt && g in s.kernel
    ensures Counted(Mapped(s, k, g, u))
  {
    UnmappedIfKernel(s, g);
    forall f | f in s.frames
      ensures s.ref[f] == Uses(s.pt[k := Pte(g, true, false, u)], s.kernel - {g}, f) + s.lost[f]
    {
      MapsAdd(s.pt, k, Pte(g, true, false, u), f);
    }
  }

  lemma MapPrivate(s: Sys, k: Key, g: Frame, u: bool)
    requires Entries(s) && Private(s) && k !in s.pt && g in s.kernel
    ensures Private(Mapped(s, k, g, u))
  {
    UnmappedIfKernel(s, g);
    var s' := Mapped(s, k, g, u);
    forall j | j in s'.pt && s'.pt[j].w
      ensures Maps(s'.pt, s'.pt[j].frame) == {j}
    {
      MapsAdd(s.pt, k, Pte(g, true, false, u), s'.pt[j].frame);
    }
  }

  lemma MapFresh(s: Sys, k: Key, g: Frame, u: bool)
    requires Good(s) && k !in s.pt && g in s.kernel
    ensures Good(Mapped(s, k, g, u)) && View(Mapped(s, k, g, u)) == View(s)[k := s.mem[g]]
  {
    hide Private, Counted, Listed;
    MapCounted(s, k, g, u);
    MapPrivate(s, k, g, u);
    MapListed(s, k, g, u);
  }

  lemma MapListed(s: Sys, k: Key, g: Frame, u: bool)
    requires Listed(s)
    ensures Listed(Mapped(s, k, g, u))
  {
    hide OnceEach, OnList;
  }

  /** A store through a writable entry is seen by that process alone. */
  lemma StorePrivate(s: Sys, k: Key, page: Page)
    requires Good(s) && k in s.pt && s.pt[k].w && |page| == PGSIZE
    ensures var s' := s.(mem := s.mem[s.pt[k].frame := page]);
            Good(s') && View(s') == View(s)[k := page]
  {
    hide OnceEach, OnList, Uses;
    forall j | j in s.pt && j != k
      ensures s.pt[j].frame != s.pt[k].frame
    {
      assert j in Maps(s.pt, s.pt[j].frame);
    }
  }

  // kfree of a mapped frame and clearing of its entry: the page disappears from one process.

  ghost function Dropped(s: Sys, k: Key, c: nat, junk: Page): Sys
    requires k in s.pt && s.pt[k].frame in s.ref && s.ref[s.pt[k].frame] >= 1 && c < |s.free|
  {
    Freed(s, s.pt[k].frame, c, junk).(pt := s.pt - {k})
  }

  lemma DropCounted(s: Sys, k: Key, c: nat, junk: Page)
    requires Entries(s) && Counted(s) && k in s.pt && c < NCPU
    requires s.pt[k].frame in s.ref && s.ref[s.pt[k].frame] >= 1
    ensures Counted(Dropped(s, k, c, junk))
  {
    var s' := Dropped(s, k, c, junk);
    forall g | g in s.frames
      ensures g in s'.ref && s'.ref[g] == Uses(s'.pt, s'.kernel, g) + s'.lost[g]
    {
      MapsRemove(s.pt, k, g);
    }
  }

  lemma DropPrivate(s: Sys, k: Key, c: nat, junk: Page)
    requires Entries(s) && Private(s) && k in s.pt && c < NCPU
    requires s.pt[k].frame in s.ref && s.ref[s.pt[k].frame] >= 1
    ensures Private(Dropped(s, k, c, junk))
  {
    var s' := Dropped(s, k, c, junk);
    forall j | j in s'.pt && s'.pt[j].w
      ensures Maps(s'.pt, s'.pt[j].frame) == {j}
    {
      MapsRemove(s.pt, k, s'.pt[j].frame);
      assert j in Maps(s.pt, s.pt[j].frame);
    }
  }

  lemma DropMapping(s: Sys, k: Key, c: nat, junk: Page)
    requires Good(s) && k in s.pt && c < NCPU && |junk| == PGSIZE
    ensures s.pt[k].frame in s.ref && s.ref[s.pt[k].frame] >= 1
    ensures Good(Dropped(s, k, c, junk)) && View(Dropped(s, k, c, junk)) == View(s) - {k}
  {
    hide Private, Counted, Listed;
    MappedIsCounted(s, k);
    DropCounted(s, k, c, junk);
    DropPrivate(s, k, c, junk);
    FreedListed(s, s.pt[k].frame, c, junk);
    SameLists(Freed(s, s.pt[k].frame, c, junk), Dropped(s, k, c, junk));
    forall j | j in s.pt && j != k && s.ref[s.pt[k].frame] == 1
      ensures s.pt[j].frame != s.pt[k].frame
    {
      assert j !in Maps(s.pt, s.pt[k].frame);
    }
  }

  // Permissions of one entry.

  ghost function Marked(s: Sys, k: Key): Sys
    requires k in s.pt
  {
    s.(pt := s.pt[k := s.pt[k].(w := false, f := true)])
  }

  ghost function Owned(s: Sys, k: Key): Sys
    requires k in s.pt
  {
    s.(pt := s.pt[k := s.pt[k].(w := true, f := false)])
  }

  lemma RetagCounted(s: Sys, k: Key, e: Pte)
    requires Entries(s) && Counted(s) && k in s.pt && e.frame == s.pt[k].frame
    ensures Counted(s.(pt := s.pt[k := e]))
  {
    forall f | f in s.frames
      ensures s.ref[f] == Uses(s.pt[k := e], s.kernel, f) + s.lost[f]
    {
      MapsSameFrame(s.pt, k, e, f);
    }
  }

  lemma RetagPrivate(s: Sys, k: Key, e: Pte)
    requires Entries(s) && Private(s) && k in s.pt && e.frame == s.pt[k].frame
    requires e.w ==> Maps(s.pt, e.frame) == {k}
    ensures Private(s.(pt := s.pt[k := e]))
  {
    var pt' := s.pt[k := e];
    forall j | j in pt' && pt'[j].w
      ensures Maps(pt', pt'[j].frame) == {j}
    {
      MapsSameFrame(s.pt, k, e, pt'[j].frame);
    }
  }

  lemma RetagView(s: Sys, k: Key, e: Pte)
    requires Good(s) && k in s.pt && e.frame == s.pt[k].frame && e.w != e.f
    requires e.w ==> Maps(s.pt, e.frame) == {k}
    ensures Good(s.(pt := s.pt[k := e])) && View(s.(pt := s.pt[k := e])) == View(s)
  {
    hide Private, Counted, Listed;
    var s' := s.(pt := s.pt[k := e]);
    RetagCounted(s, k, e);
    RetagPrivate(s, k, e);
    SameLists(s, s');
  }

  /** Marking a page copy-on-write changes nothing anyone sees. */
  lemma MarkShared(s: Sys, k: Key)
    requires Good(s) && k in s.pt
    ensures Good(Marked(s, k)) && View(Marked(s, k)) == View(s)
  {
    hide Good, View;
    RetagView(s, k, s.pt[k].(w := false, f := true));
  }

  /** cowalloc on a frame nobody else maps: the entry becomes writable in place. */
  lemma OwnMapping(s: Sys, k: Key)
    requires Good(s) && k in s.pt && s.ref[s.pt[k].frame] == 1
    ensures Good(Owned(s, k)) && View(Owned(s, k)) == View(s)
  {
    hide Private, Counted, Listed;
    MappedIsCounted(s, k);
    RetagView(s, k, s.pt[k].(w := true, f := false));
  }

  // One page of fork: the child's entry is a copy of the parent's read-only one.

  ghost function Shared(s: Sys, k: Key, j: Key): Sys
    requires k in s.pt && s.pt[k].frame in s.ref
  {
    s.(pt := s.pt[j := s.pt[k]], ref := s.ref[s.pt[k].frame := s.ref[s.pt[k].frame] + 1])
  }

  lemma ShareCounted(s: Sys, k: Key, j: Key)
    requires Entries(s) && Counted(s) && k in s.pt && j !in s.pt && s.pt[k].frame in s.ref
    ensures Counted(Shared(s, k, j))
  {
    var s' := Shared(s, k, j);
    forall f | f in s.frames
      ensures f in s'.ref && s'.ref[f] == Uses(s'.pt, s'.kernel, f) + s'.lost[f]
    {
      MapsAdd(s.pt, j, s.pt[k], f);
    }
  }

  lemma SharePrivate(s: Sys, k: Key, j: Key)
    requires Entries(s) && Private(s) && k in s.pt && j !in s.pt && s.pt[k].frame in s.ref && !s.pt[k].w
    ensures Private(Shared(s, k, j))
  {
    var s' := Shared(s, k, j);
    assert k in Maps(s.pt, s.pt[k].frame);
    forall i | i in s'.pt && s'.pt[i].w
      ensures Maps(s'.pt, s'.pt[i].frame) == {i}
    {
      MapsAdd(s.pt, j, s.pt[k], s'.pt[i].frame);
    }
  }

  lemma ShareMapping(s: Sys, k: Key, j: Key)
    requires Good(s) && k in s.pt && j !in s.pt && !s.pt[k].w
    ensures s.pt[k].frame in s.ref
    ensures Good(Shared(s, k, j)) && View(Shared(s, k, j)) == View(s)[j := View(s)[k]]
  {
    hide Private, Counted, Listed;
    MappedIsCounted(s, k);
    ShareCounted(s, k, j);
    SharePrivate(s, k, j);
    SameLists(s, Shared(s, k, j));
  }

  // cowalloc on a shared frame: the entry moves to a private copy.

  ghost function Copied(s: Sys, k: Key, g: Frame): Sys
    requires k in s.pt && s.pt[k].frame in s.ref && s.ref[s.pt[k].frame] >= 1
  {
    s.(pt := s.pt[k := s.pt[k].(frame := g, w := true, f := false)], kernel := s.kernel - {g},
       ref := s.ref[s.pt[k].frame := s.ref[s.pt[k].frame] - 1])
  }

  lemma CopyMaps(pt: PageTables, k: Key, e: Pte, f: Frame)
    requires k in pt && e.frame != pt[k].frame
    ensures Maps(pt[k := e], f) ==
      (if pt[k].frame == f then Maps(pt, f) - {k} else if e.frame == f then Maps(pt, f) + {k} else Maps(pt, f))
    ensures |Maps(pt[k := e], f)| ==
      |Maps(pt, f)| + (if e.frame == f then 1 else 0) - (if pt[k].frame == f then 1 else 0)
  {
    MapsRemove(pt, k, f);
    MapsAdd(pt - {k}, k, e, f);
    assert (pt - {k})[k := e] == pt[k := e];
  }

  lemma CopyCounted(s: Sys, k: Key, g: Frame)
    requires Entries(s) && Counted(s) && k in s.pt && g in s.kernel && s.pt[k].frame in s.ref
    requires s.ref[s.pt[k].frame] >= 1
    ensures Counted(Copied(s, k, g))
  {
    var s' := Copied(s, k, g);
    UnmappedIfKernel(s, g);
    forall f | f in s.frames
      ensures f in s'.ref && s'.ref[f] == Uses(s'.pt, s'.kernel, f) + s'.lost[f]
    {
      CopyMaps(s.pt, k, s.pt[k].(frame := g, w := true, f := false), f);
    }
  }

  lemma CopyPrivate(s: Sys, k: Key, g: Frame)
    requires Entries(s) && Private(s) && k in s.pt && g in s.kernel && s.pt[k].frame in s.ref
    requires s.ref[s.pt[k].frame] >= 1
    ensures Private(Copied(s, k, g))
  {
    var s' := Copied(s, k, g);
    UnmappedIfKernel(s, g);
    forall i | i in s'.pt && s'.pt[i].w
      ensures Maps(s'.pt, s'.pt[i].frame) == {i}
    {
      CopyMaps(s.pt, k, s.pt[k].(frame := g, w := true, f := false), s'.pt[i].frame);
      if i != k {
        assert i in Maps(s.pt, s.pt[i].frame);
      }
    }
  }

  lemma CopyMapping(s: Sys, k: Key, g: Frame)
    requires Good(s) && k in s.pt && g in s.kernel && s.mem[g] == s.mem[s.pt[k].frame] && s.ref[s.pt[k].frame] >= 2
    ensures Good(Copied(s, k, g)) && View(Copied(s, k, g)) == View(s)
  {
    hide Private, Counted, Listed;
    MappedIsCounted(s, k);
    CopyCounted(s, k, g);
    CopyPrivate(s, k, g);
    SameLists(s, Copied(s, k, g));
  }

  /** freerange hands a new frame to the allocator with one use, which kfree then takes away. */
  lemma NewFrame(s: Sys, f: Frame, page: Page)
    requires Good(s) && f !in s.frames && |page| == PGSIZE
    ensures Good(s.(frames := s.frames + {f}, ref := s.ref[f := 1], mem := s.mem[f := page], kernel := s.kernel + {f},
                    lost := s.lost[f := 0]))
  {
    hide OnceEach, OnList;
    assert Maps(s.pt, f) == {};
    assert !OnList(s.free, f);
  }

  /** Every frame is free, or mapped, or the kernel's, or lost; a free one is none of the others. */
  lemma Partition(s: Sys, f: Frame)
    requires Good(s) && f in s.frames
    ensures OnList(s.free, f) <==> Maps(s.pt, f) == {} && f !in s.kernel && s.lost[f] == 0
    ensures f in s.kernel ==> Maps(s.pt, f) == {} && s.lost[f] == 0
  {
    hide OnceEach, OnList;
  }

  // The page tables of a process are discarded with the entries that are still in them.

  function Others<T>(m: map<Key, T>, pid: nat): map<Key, T> {
    map k | k in m && k.pid != pid :: m[k]
  }

  ghost function MapsOf(pt: PageTables, pid: nat, f: Frame): (r: set<Key>)
    ensures forall k :: k in r <==> k in pt && k.pid == pid && pt[k].frame == f
  {
    set k | k in pt && k.pid == pid && pt[k].frame == f
  }

  ghost function Discarded(s: Sys, pid: nat): Sys {
    s.(pt := Others(s.pt, pid), lost := map f | f in s.lost :: s.lost[f] + |MapsOf(s.pt, pid, f)|)
  }

  lemma MapsSplit(pt: PageTables, pid: nat, f: Frame)
    ensures |Maps(pt, f)| == |Maps(Others(pt, pid), f)| + |MapsOf(pt, pid, f)|
    ensures Maps(Others(pt, pid), f) <= Maps(pt, f)
  {
    assert Maps(pt, f) == Maps(Others(pt, pid), f) + MapsOf(pt, pid, f);
  }

  lemma DiscardCounted(s: Sys, pid: nat)
    requires Entries(s) && Counted(s)
    ensures Counted(Discarded(s, pid))
  {
    var s' := Discarded(s, pid);
    forall f | f in s.frames
      ensures f in s'.ref && f in s'.lost && s'.ref[f] == Uses(s'.pt, s'.kernel, f) + s'.lost[f]
    {
      MapsSplit(s.pt, pid, f);
    }
  }

  lemma DiscardEntries(s: Sys, pid: nat)
    requires Entries(s)
    ensures Entries(Discarded(s, pid))
  {
    forall f | f in s.kernel
      ensures MapsOf(s.pt, pid, f) == {}
    {}
  }

  lemma DiscardPrivate(s: Sys, pid: nat)
    requires Private(s)
    ensures Private(Discarded(s, pid))
  {
    var s' := Discarded(s, pid);
    forall k | k in s'.pt && s'.pt[k].w
      ensures Maps(s'.pt, s'.pt[k].frame) == {k}
    {
      MapsSplit(s.pt, pid, s.pt[k].frame);
      assert k in Maps(s'.pt, s'.pt[k].frame);
    }
  }

  /** That is seen by no other process; uses are lost exactly if an entry was left. */
  lemma Discard(s: Sys, pid: nat)
    requires Good(s)
    ensures Good(Discarded(s, pid)) && View(Discarded(s, pid)) == Others(View(s), pid)
    ensures Discarded(s, pid).lost == s.lost <==> forall k :: k in s.pt ==> k.pid != pid
  {
    hide Private, Counted, Listed, Entries;
    DiscardEntries(s, pid);
    DiscardCounted(s, pid);
    DiscardPrivate(s, pid);
    SameLists(s, Discarded(s, pid));
    DiscardLoses(s, pid);
    DiscardView(s, pid);
  }

  lemma DiscardView(s: Sys, pid: nat)
    requires Entries(s) && Pages(s) && Entries(Discarded(s, pid))
    ensures Pages(Discarded(s, pid)) && View(Discarded(s, pid)) == Others(View(s), pid)
  {}

  lemma DiscardLoses(s: Sys, pid: nat)
    requires Entries(s) && Counted(s)
    ensures Discarded(s, pid).lost == s.lost <==> forall k :: k in s.pt ==> k.pid != pid
  {
    var lost' := Discarded(s, pid).lost;
    if exists k :: k in s.pt && k.pid == pid {
      var k :| k in s.pt && k.pid == pid;
      var f := s.pt[k].frame;
      assert k in MapsOf(s.pt, pid, f);
      assert lost'[f] > s.lost[f];
    } else {
      forall f | f in s.lost
        ensures lost'[f] == s.lost[f]
      {
        assert MapsOf(s.pt, pid, f) == {};
      }
    }
  }
}
