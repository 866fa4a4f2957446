/**
 The virtual memory system as it runs: kalloc and kfree with their per-processor
 lists, growing and shrinking a process, fork by sharing, copy on write, and the
 copies between kernel and user memory.

 `Seen` is what the processes see of memory. Each method says what it does to it,
 as though every process had its own pages.
 */
module Vm {

  import opened Common
  import opened Cow
  import opened TablePages

  type Seen = map<Key, Page>

  // ---- What the operations mean ----

  function RoundUp(n: nat): nat {
    (n + PGSIZE - 1) / PGSIZE
  }

  lemma RoundUpMore(m: nat, n: nat)
    requires m <= n
    ensures RoundUp(m) <= RoundUp(n)
  {}

  /** The pages from RoundUp(n) on are those that begin at byte `n` or after it. */
  lemma RoundUpPages(n: nat, v: nat)
    ensures RoundUp(n) <= v <==> n <= v * PGSIZE
  {}

  lemma RoundUpWhole(v: nat)
    ensures RoundUp(v * PGSIZE) == v
  {}

  /** How many pages growing from one size to another adds. */
  function NewPages(oldsz: nat, newsz: nat): nat {
    if RoundUp(oldsz) < RoundUp(newsz) then RoundUp(newsz) - RoundUp(oldsz) else 0
  }

  /** The first `n` pages of `parent` copied to `child`. */
  ghost function Forked<T>(v: map<Key, T>, parent: nat, child: nat, n: nat): map<Key, T> {
    if n == 0 then v
    else if Key(parent, n - 1) in v then Forked(v, parent, child, n - 1)[Key(child, n - 1) := v[Key(parent, n - 1)]]
    else Forked(v, parent, child, n - 1)
  }

  lemma {:induction false} ForkedAt<T>(v: map<Key, T>, parent: nat, child: nat, n: nat, k: Key)
    requires parent != child && forall i: nat :: i < n ==> Key(child, i) !in v
    ensures k in Forked(v, parent, child, n) <==> k in v || (k.pid == child && k.vpn < n && Key(parent, k.vpn) in v)
    ensures k in v ==> Forked(v, parent, child, n)[k] == v[k]
    ensures k.pid == child && k.vpn < n && Key(parent, k.vpn) in v ==>
      Forked(v, parent, child, n)[k] == v[Key(parent, k.vpn)]
  {
    if n > 0 {
      ForkedAt(v, parent, child, n - 1, k);
    }
  }

  lemma ForkedNext<T>(v: map<Key, T>, parent: nat, child: nat, n: nat)
    ensures Forked(v, parent, child, 0) == v
    ensures Forked(v, parent, child, n + 1) ==
      if Key(parent, n) in v then Forked(v, parent, child, n)[Key(child, n) := v[Key(parent, n)]]
      else Forked(v, parent, child, n)
  {}

  lemma ForkedBack<T>(v: map<Key, T>, parent: nat, child: nat, n: nat)
    requires parent != child && forall i: nat :: i < n ==> Key(child, i) !in v
    ensures Without(Forked(v, parent, child, n), child, 0, n) == v
  {
    var w := Without(Forked(v, parent, child, n), child, 0, n);
    forall k: Key
      ensures k in w <==> k in v
      ensures k in v ==> w[k] == v[k]
    {
      ForkedAt(v, parent, child, n, k);
    }
  }

  /** Pages `lo` to `hi` of `pid` appear, each with `x`. */
  ghost function Grown<T>(v: map<Key, T>, pid: nat, lo: nat, hi: nat, x: T): map<Key, T>
    decreases hi - lo
  {
    if hi <= lo then v else Grown(v, pid, lo, hi - 1, x)[Key(pid, hi - 1) := x]
  }

  /** Pages `lo` to `hi` of `pid` are gone. */
  ghost function Without<T>(m: map<Key, T>, pid: nat, lo: nat, hi: nat): map<Key, T> {
    map k | k in m && !(k.pid == pid && lo <= k.vpn < hi) :: m[k]
  }

  /** The pages of `pid` that begin at byte `lo` or after it, and before byte `hi`. */
  function PagesIn(pid: nat, lo: nat, hi: nat): set<Key> {
    set v: nat | v < hi && lo <= v * PGSIZE < hi :: Key(pid, v)
  }

  lemma PagesInAre(pid: nat, lo: nat, hi: nat, k: Key)
    ensures k in PagesIn(pid, lo, hi) <==> k.pid == pid && lo <= k.vpn * PGSIZE < hi
  {
    if k.pid == pid && lo <= k.vpn * PGSIZE < hi {
      assert k == Key(pid, k.vpn) && k.vpn <= k.vpn * PGSIZE;
    }
  }

  /** Growing from `oldsz` to `newsz` bytes: the pages that begin between the two appear, each with `x`. */
  ghost function GrownTo<T>(v: map<Key, T>, pid: nat, oldsz: nat, newsz: nat, x: T): map<Key, T> {
    map k | k in v.Keys + PagesIn(pid, oldsz, newsz) :: if k in PagesIn(pid, oldsz, newsz) then x else v[k]
  }

  /** Shrinking from `oldsz` to `newsz` bytes: those pages go. */
  ghost function ShrunkTo<T>(v: map<Key, T>, pid: nat, oldsz: nat, newsz: nat): map<Key, T> {
    map k | k in v && k !in PagesIn(pid, newsz, oldsz) :: v[k]
  }

  lemma GrownIsGrownTo<T>(v: map<Key, T>, pid: nat, oldsz: nat, newsz: nat, x: T)
    requires oldsz <= newsz
    ensures Grown(v, pid, RoundUp(oldsz), RoundUp(newsz), x) == GrownTo(v, pid, oldsz, newsz, x)
  {
    hide PagesIn, RoundUp, Grown;
    RoundUpMore(oldsz, newsz);
    var w := Grown(v, pid, RoundUp(oldsz), RoundUp(newsz), x);
    forall k: Key
      ensures k in w <==> k in v || k in PagesIn(pid, oldsz, newsz)
      ensures k in w ==> w[k] == if k in PagesIn(pid, oldsz, newsz) then x else v[k]
    {
      GrownAt(v, pid, RoundUp(oldsz), RoundUp(newsz), x, k);
      PagesInAre(pid, oldsz, newsz, k);
      RoundUpPages(oldsz, k.vpn);
      RoundUpPages(newsz, k.vpn);
    }
  }

  lemma WithoutIsShrunkTo<T>(v: map<Key, T>, pid: nat, oldsz: nat, newsz: nat)
    ensures Without(v, pid, RoundUp(newsz), RoundUp(oldsz)) == ShrunkTo(v, pid, oldsz, newsz)
  {
    hide PagesIn, RoundUp;
    forall k: Key
      ensures k in PagesIn(pid, newsz, oldsz) <==> k.pid == pid && RoundUp(newsz) <= k.vpn < RoundUp(oldsz)
    {
      PagesInAre(pid, newsz, oldsz, k);
      RoundUpPages(newsz, k.vpn);
      RoundUpPages(oldsz, k.vpn);
    }
  }

  lemma NoneInRange<T>(v: map<Key, T>, pid: nat, oldsz: nat, newsz: nat)
    ensures (exists k :: k in PagesIn(pid, oldsz, newsz) && k in v) <==>
      exists i: nat :: RoundUp(oldsz) <= i < RoundUp(newsz) && Key(pid, i) in v
  {
    hide PagesIn, RoundUp;
    forall k: Key
      ensures k in PagesIn(pid, oldsz, newsz) <==> k.pid == pid && RoundUp(oldsz) <= k.vpn < RoundUp(newsz)
    {
      PagesInAre(pid, oldsz, newsz, k);
      RoundUpPages(oldsz, k.vpn);
      RoundUpPages(newsz, k.vpn);
    }
    if k :| k in PagesIn(pid, oldsz, newsz) && k in v {
      assert Key(pid, k.vpn) in v;
    }
  }

  /** Growing gives every new address a page: one that was begun below the old size, or a new one. */
  lemma EveryAddressHasAPage<T>(v: map<Key, T>, pid: nat, oldsz: nat, newsz: nat, x: T, a: nat)
    requires oldsz <= a < newsz
    ensures
      var k, w := Key(pid, a / PGSIZE), GrownTo(v, pid, oldsz, newsz, x);
      a / PGSIZE * PGSIZE < oldsz || (k in w && w[k] == x)
  {
    hide PagesIn;
    PagesInAre(pid, oldsz, newsz, Key(pid, a / PGSIZE));
  }

  /** Shrinking takes no page an address below the new size is on, and growing and shrinking back changes nothing. */
  lemma ShrinkingUndoesGrowing<T>(v: map<Key, T>, pid: nat, oldsz: nat, newsz: nat, x: T, a: nat)
    requires oldsz <= newsz && forall k :: k in PagesIn(pid, oldsz, newsz) ==> k !in v
    ensures ShrunkTo(GrownTo(v, pid, oldsz, newsz, x), pid, newsz, oldsz) == v
    ensures a < oldsz && Key(pid, a / PGSIZE) in v ==> Key(pid, a / PGSIZE) in ShrunkTo(v, pid, newsz, oldsz)
  {
    hide PagesIn;
    PagesInAre(pid, oldsz, newsz, Key(pid, a / PGSIZE));
  }

  lemma WithoutStep<T>(m: map<Key, T>, pid: nat, lo: nat, hi: nat)
    requires lo <= hi
    ensures Without(m, pid, lo, hi + 1) == Without(m, pid, lo, hi) - {Key(pid, hi)}
    ensures Key(pid, hi) !in m ==> Without(m, pid, lo, hi + 1) == Without(m, pid, lo, hi)
  {}

  lemma WithoutNone<T>(m: map<Key, T>, pid: nat, lo: nat, hi: nat)
    requires hi <= lo
    ensures Without(m, pid, lo, hi) == m
  {}

  lemma {:induction false} GrownAt<T>(v: map<Key, T>, pid: nat, lo: nat, hi: nat, x: T, k: Key)
    requires lo <= hi
    ensures k in Grown(v, pid, lo, hi, x) <==> k in v || (k.pid == pid && lo <= k.vpn < hi)
    ensures k in Grown(v, pid, lo, hi, x) ==>
      Grown(v, pid, lo, hi, x)[k] == if k.pid == pid && lo <= k.vpn < hi then x else v[k]
    decreases hi - lo
  {
    if lo < hi {
      GrownAt(v, pid, lo, hi - 1, x, k);
    }
  }

  lemma GrownNext<T>(v: map<Key, T>, pid: nat, lo: nat, hi: nat, x: T)
    requires lo <= hi
    ensures Grown(v, pid, lo, lo, x) == v
    ensures Grown(v, pid, lo, hi + 1, x) == Grown(v, pid, lo, hi, x)[Key(pid, hi) := x]
  {}

  lemma GrownBack<T>(v: map<Key, T>, pid: nat, lo: nat, hi: nat, x: T)
    requires lo <= hi && forall i: nat :: lo <= i < hi ==> Key(pid, i) !in v
    ensures Without(Grown(v, pid, lo, hi, x), pid, lo, hi) == v
  {
    var w := Without(Grown(v, pid, lo, hi, x), pid, lo, hi);
    forall k: Key
      ensures k in w <==> k in v
      ensures k in v ==> w[k] == v[k]
    {
      GrownAt(v, pid, lo, hi, x, k);
      assert k in v && k.pid == pid ==> k == Key(pid, k.vpn);
    }
  }

  /** Which pages the user may touch. */
  ghost function Users(pt: PageTables): (u: map<Key, bool>)
    ensures u.Keys == pt.Keys
  {
    map k | k in pt :: pt[k].u
  }

  /** The same pages map the same frames for the same users, writable or not. */
  ghost predicate SameFrames(pt: PageTables, pt': PageTables) {
    pt'.Keys == pt.Keys && forall k :: k in pt ==> pt'[k].frame == pt[k].frame && pt'[k].u == pt[k].u
  }

  lemma FramesSame(pt: PageTables)
    ensures SameFrames(pt, pt)
  {}

  lemma FramesNotShared(pt: PageTables, pt1: PageTables, pt2: PageTables, pid: nat, hi: nat)
    requires SameFrames(pt, Without(pt1, pid, 0, hi)) && SameFrames(pt1, pt2)
    ensures SameFrames(pt, Without(pt2, pid, 0, hi))
  {
    var w1, w2 := Without(pt1, pid, 0, hi), Without(pt2, pid, 0, hi);
    forall k: Key
      ensures k in w2 <==> k in w1
      ensures k in w1 ==> w2[k].frame == w1[k].frame && w2[k].u == w1[k].u
    {
      assert k in pt1 <==> k in pt2;
    }
  }

  lemma FramesShared(pt: PageTables, pt1: PageTables, pt2: PageTables, pid: nat, hi: nat)
    requires SameFrames(pt, Without(pt1, pid, 0, hi)) && Key(pid, hi) !in pt1
    requires Key(pid, hi) in pt2 && SameFrames(pt1[Key(pid, hi) := pt2[Key(pid, hi)]], pt2)
    ensures SameFrames(pt, Without(pt2, pid, 0, hi + 1))
  {
    var pt1' := pt1[Key(pid, hi) := pt2[Key(pid, hi)]];
    assert Without(pt1', pid, 0, hi + 1) == Without(pt1, pid, 0, hi);
    FramesNotShared(pt, pt1', pt2, pid, hi + 1);
  }

  lemma UsersShared(pt: PageTables, pt1: PageTables, k: Key, j: Key)
    requires k in pt && j in pt1 && SameFrames(pt[j := pt1[j]], pt1) && pt1[j].u == pt[k].u
    ensures Users(pt1) == Users(pt)[j := Users(pt)[k]]
  {}

  lemma UsersAdded(pt: PageTables, k: Key, e: Pte)
    ensures Users(pt[k := e]) == Users(pt)[k := e.u]
  {}

  lemma NoneTouched(pt: PageTables, k: Key)
    requires k in pt
    ensures Touched(Users(pt), k, true) == Users(pt)
  {}

  lemma UsersSame(pt: PageTables, pt': PageTables)
    requires SameFrames(pt, pt') || SameAccess(pt, pt')
    ensures Users(pt') == Users(pt)
  {}

  /** Then every frame has as many mappings. */
  lemma SameFramesSameMaps(pt: PageTables, pt': PageTables, f: Frame)
    requires SameFrames(pt, pt')
    ensures Maps(pt', f) == Maps(pt, f)
  {}

  /** The pages from `hi` on are as they were. */
  lemma UnaddedPage(pt: PageTables, pt0: PageTables, pid: nat, lo: nat, hi: nat)
    requires lo <= hi && Without(pt, pid, lo, hi) == pt0
    ensures Key(pid, hi) in pt <==> Key(pid, hi) in pt0
  {}

  lemma GrownTables(pt: PageTables, pid: nat, lo: nat, hi: nat, e: Pte)
    requires lo <= hi
    requires Key(pid, hi) !in Without(pt, pid, lo, hi)
    ensures Without(pt[Key(pid, hi) := e], pid, lo, hi + 1) == Without(pt, pid, lo, hi)
  {}

  /** A fault the handler acts on, whether or not there is a frame for it. */
  predicate Resolvable(pt: PageTables, k: Key, va: nat, sz: nat, shm: nat, sp: nat) {
    if k in pt && pt[k].f then va < sz && pt[k].u else AboveStack(sp, va) && (va < sz || va < shm)
  }

  /** A page never touched before has `x`. */
  ghost function Touched<T>(v: map<Key, T>, k: Key, x: T): (r: map<Key, T>)
    ensures k in r
  {
    if k in v then v else v[k := x]
  }

  datatype Outcome = Resumed | Killed | Panicked

  /** The fault handler's test that the address lies above the stack pointer's page, in 64-bit arithmetic. */
  predicate AboveStack(sp: nat, va: nat) {
    (RoundUp(sp) * PGSIZE + 0xFFFF_FFFF_FFFF_FFFF) % 0x1_0000_0000_0000_0000 < va
  }

  /**
   For addresses of 64 bits: the page of `va` begins at or above the stack pointer, which is
   neither zero nor at the very end.
   */
  lemma AboveStackMeans(sp: nat, va: nat)
    requires sp < 0x1_0000_0000_0000_0000 && va < 0x1_0000_0000_0000_0000
    ensures AboveStack(sp, va) <==> 0 < sp <= 0x1_0000_0000_0000_0000 - PGSIZE && sp <= va / PGSIZE * PGSIZE
  {
    hide RoundUp;
    RoundUpPages(sp, va / PGSIZE);
    RoundUpPages(sp, 0);
    RoundUpPages(sp, 0x1_0000_0000_0000_0000 / PGSIZE);
    RoundUpPages(sp, 0x1_0000_0000_0000_0000 / PGSIZE - 1);
  }

  // ---- Bytes of user memory ----

  /** walkaddr accepts address `a`. */
  predicate UserPage(pt: PageTables, pid: nat, a: nat) {
    Key(pid, a / PGSIZE) in pt && pt[Key(pid, a / PGSIZE)].u
  }

  function UserKey(pt: PageTables, pid: nat, a: nat): (k: Key)
    requires UserPage(pt, pid, a)
    ensures k == Key(pid, a / PGSIZE) && k in pt && pt[k].u
  {
    Key(pid, a / PGSIZE)
  }

  lemma SamePage(pt: PageTables, pid: nat, a: nat, n: nat)
    requires UserPage(pt, pid, a) && a % PGSIZE + n <= PGSIZE
    ensures forall i :: a <= i < a + n ==> UserPage(pt, pid, i)
  {
    forall i | a <= i < a + n
      ensures UserPage(pt, pid, i)
    {
      assert i / PGSIZE == a / PGSIZE;
    }
  }

  /** Copy-on-write changes frames and write permission only. */
  ghost predicate SameAccess(pt: PageTables, pt': PageTables) {
    pt.Keys == pt'.Keys && forall k :: k in pt ==> pt'[k].u == pt[k].u
  }

  lemma AccessSame(pt: PageTables)
    ensures SameAccess(pt, pt)
  {}

  lemma AccessTwice(a: PageTables, b: PageTables, c: PageTables)
    requires SameAccess(a, b) && SameAccess(b, c)
    ensures SameAccess(a, c)
  {}

  lemma AccessKept(pt: PageTables, pt': PageTables, pid: nat, a: nat)
    requires SameAccess(pt, pt')
    ensures UserPage(pt, pid, a) <==> UserPage(pt', pid, a)
  {}

  function Patched(page: Page, off: nat, data: seq<Byte>): (r: Page)
    requires off + |data| <= |page|
    ensures |r| == |page|
  {
    page[..off] + data + page[off + |data|..]
  }

  /** `page` starts at address `base`; the bytes at `dst` on become `src`. */
  ghost function WrittenPage(page: Page, base: nat, dst: nat, src: seq<Byte>): (r: Page)
    ensures |r| == |page|
  {
    seq(|page|, i requires 0 <= i < |page| => if dst <= base + i < dst + |src| then src[base + i - dst] else page[i])
  }

  ghost function Written(v: Seen, pid: nat, dst: nat, src: seq<Byte>): (r: Seen)
    ensures r.Keys == v.Keys
    ensures forall k :: k in v ==> |r[k]| == |v[k]|
  {
    map k | k in v :: if k.pid == pid then WrittenPage(v[k], k.vpn * PGSIZE, dst, src) else v[k]
  }

  lemma WrittenNone(v: Seen, pid: nat, dst: nat)
    ensures Written(v, pid, dst, []) == v
  {
    forall k | k in v
      ensures WrittenPage(v[k], k.vpn * PGSIZE, dst, []) == v[k]
    {}
  }

  lemma OtherPage(page: Page, vpn: nat, dst: nat, src: seq<Byte>, m: nat, n: nat)
    requires m + n <= |src| && (dst + m) % PGSIZE + n <= PGSIZE && |page| == PGSIZE && vpn != (dst + m) / PGSIZE
    ensures WrittenPage(page, vpn * PGSIZE, dst, src[..m + n]) == WrittenPage(page, vpn * PGSIZE, dst, src[..m])
  {
    var q := (dst + m) / PGSIZE;
    assert dst + m == q * PGSIZE + (dst + m) % PGSIZE;
    assert vpn < q || q < vpn;
  }

  lemma ThisPage(page: Page, dst: nat, src: seq<Byte>, m: nat, n: nat)
    requires m + n <= |src| && (dst + m) % PGSIZE + n <= PGSIZE && |page| == PGSIZE
    ensures var base := (dst + m) / PGSIZE * PGSIZE;
            WrittenPage(page, base, dst, src[..m + n]) ==
              Patched(WrittenPage(page, base, dst, src[..m]), (dst + m) % PGSIZE, src[m..m + n])
  {
    var base := (dst + m) / PGSIZE * PGSIZE;
    assert dst + m == base + (dst + m) % PGSIZE;
  }

  /** Bytes up to the end of a page. */
  lemma WriteChunk(v: Seen, pid: nat, dst: nat, src: seq<Byte>, m: nat, n: nat)
    requires m + n <= |src| && (dst + m) % PGSIZE + n <= PGSIZE
    requires forall k :: k in v ==> |v[k]| == PGSIZE
    requires Key(pid, (dst + m) / PGSIZE) in v
    ensures var k := Key(pid, (dst + m) / PGSIZE);
            var w := Written(v, pid, dst, src[..m]);
            Written(v, pid, dst, src[..m + n]) == w[k := Patched(w[k], (dst + m) % PGSIZE, src[m..m + n])]
  {
    var k := Key(pid, (dst + m) / PGSIZE);
    var w := Written(v, pid, dst, src[..m]);
    var w' := Written(v, pid, dst, src[..m + n]);
    forall j | j in v && j != k
      ensures w'[j] == w[j]
    {
      if j.pid == pid {
        OtherPage(v[j], j.vpn, dst, src, m, n);
      }
    }
    ThisPage(v[k], dst, src, m, n);
  }

  /** The process sees byte `b` at address `a`. */
  ghost predicate HasByte(v: Seen, pid: nat, a: nat, b: Byte) {
    var k := Key(pid, a / PGSIZE);
    k in v && |v[k]| == PGSIZE && v[k][a % PGSIZE] == b
  }

  ghost predicate HasBytes(v: Seen, pid: nat, a: nat, data: seq<Byte>) {
    forall i :: 0 <= i < |data| ==> HasByte(v, pid, a + i, data[i])
  }

  lemma ReadChunk(v: Seen, pid: nat, a: nat, data: seq<Byte>)
    requires a % PGSIZE + |data| <= PGSIZE
    requires var k := Key(pid, a / PGSIZE); k in v && |v[k]| == PGSIZE && data == v[k][a % PGSIZE..a % PGSIZE + |data|]
    ensures HasBytes(v, pid, a, data)
  {
    forall i | 0 <= i < |data|
      ensures HasByte(v, pid, a + i, data[i])
    {
      assert (a + i) / PGSIZE == a / PGSIZE && (a + i) % PGSIZE == a % PGSIZE + i;
    }
  }

  lemma ReadOn(v: Seen, pid: nat, a: nat, x: seq<Byte>, y: seq<Byte>)
    requires HasBytes(v, pid, a, x) && HasBytes(v, pid, a + |x|, y)
    ensures HasBytes(v, pid, a, x + y)
  {
    hide HasByte;
    forall i | 0 <= i < |x + y|
      ensures HasByte(v, pid, a + i, (x + y)[i])
    {
      if i >= |x| {
        assert HasByte(v, pid, a + |x| + (i - |x|), y[i - |x|]);
      }
    }
  }

  /** What copyout wrote is what copyin reads; every other byte is as before. */
  lemma WrittenByte(v: Seen, pid: nat, dst: nat, src: seq<Byte>, a: nat, q: nat, b: Byte)
    requires forall k :: k in v ==> |v[k]| == PGSIZE
    ensures Key(pid, a / PGSIZE) in v && q == pid && dst <= a < dst + |src| ==>
      HasByte(Written(v, pid, dst, src), q, a, src[a - dst])
    ensures q != pid || !(dst <= a < dst + |src|) ==>
      (HasByte(Written(v, pid, dst, src), q, a, b) <==> HasByte(v, q, a, b))
  {
    assert a / PGSIZE * PGSIZE + a % PGSIZE == a;
  }

  lemma CopyRoundTrip(pt: PageTables, v: Seen, pid: nat, dst: nat, src: seq<Byte>)
    requires v.Keys == pt.Keys && forall k :: k in v ==> |v[k]| == PGSIZE
    requires forall a :: dst <= a < dst + |src| ==> UserPage(pt, pid, a)
    ensures HasBytes(Written(v, pid, dst, src), pid, dst, src)
  {
    hide Written, HasByte;
    forall i | 0 <= i < |src|
      ensures HasByte(Written(v, pid, dst, src), pid, dst + i, src[i])
    {
      assert UserPage(pt, pid, dst + i);
      WrittenByte(v, pid, dst, src, dst + i, pid, 0);
    }
  }

  // ---- Facts about good states ----

  lemma BlankGood(s: Sys)
    requires s == Sys({}, map[], map[], map[], seq(NCPU, _ => []), {}, map[])
    ensures Good(s)
  {}

  lemma HasLists(s: Sys)
    requires Good(s)
    ensures |s.free| == NCPU
  {}

  lemma Outside(s: Sys, f: Frame)
    requires Good(s) && f !in s.frames
    ensures f !in s.kernel
  {}

  lemma InHand(s: Sys, f: Frame)
    requires Good(s) && f in s.kernel
    ensures |s.free| == NCPU && f in s.ref && s.ref[f] == 1 && f in s.mem && |s.mem[f]| == PGSIZE
  {
    UnmappedIfKernel(s, f);
  }

  lemma TopIsFree(s: Sys, c: nat)
    requires Good(s) && c < NCPU && s.free[c] != []
    ensures s.free[c][0] in s.ref && s.ref[s.free[c][0]] == 0
  {
    assert OnList(s.free, s.free[c][0]);
  }

  lemma SameKeys(s: Sys)
    requires Good(s)
    ensures View(s).Keys == s.pt.Keys
  {}

  lemma PageSizes(s: Sys)
    requires Good(s)
    ensures forall k :: k in View(s) ==> |View(s)[k]| == PGSIZE
  {}

  lemma Reachable(s: Sys, k: Key)
    requires Good(s) && k in s.pt
    ensures var f := s.pt[k].frame; f in s.ref && s.ref[f] >= 1 && f in s.mem && |s.mem[f]| == PGSIZE && f !in s.kernel
    ensures View(s)[k] == s.mem[s.pt[k].frame]
  {
    MappedIsCounted(s, k);
  }

  lemma MarkedIfNotWritable(s: Sys, k: Key)
    requires Good(s) && k in s.pt
    ensures s.pt[k].f == !s.pt[k].w
  {}

  lemma RewriteKernelFrame(s: Sys, g: Frame, page: Page)
    requires Good(s) && g in s.kernel && |page| == PGSIZE
    ensures Good(s.(mem := s.mem[g := page])) && View(s.(mem := s.mem[g := page])) == View(s)
  {
    hide OnceEach, OnList, Maps;
  }

  lemma CopyFilled(s: Sys, k: Key, g: Frame)
    requires Good(s) && k in s.pt && g in s.kernel && s.pt[k].frame in s.ref && s.ref[s.pt[k].frame] >= 2
    ensures s.pt[k].frame in s.mem
    ensures var s' := s.(mem := s.mem[g := s.mem[s.pt[k].frame]]);
      Good(Copied(s', k, g)) && View(Copied(s', k, g)) == View(s)
  {
    hide Good, View;
    Reachable(s, k);
    InHand(s, g);
    RewriteKernelFrame(s, g, s.mem[s.pt[k].frame]);
    CopyMapping(s.(mem := s.mem[g := s.mem[s.pt[k].frame]]), k, g);
  }

  /** Frames in use keep their uses and their contents. */
  ghost predicate Kept(s: Sys, s': Sys) {
    && s.kernel <= s'.kernel
    && forall f :: f in s.ref && s.ref[f] >= 1 ==>
         f in s'.ref && s'.ref[f] == s.ref[f] && (f in s.mem ==> f in s'.mem && s'.mem[f] == s.mem[f])
  }

  /** The list kalloc takes from: this processor's, or else the first that has a frame. */
  predicate FirstList(free: seq<seq<Frame>>, cpu: nat, c: nat)
    requires cpu < |free| && c < |free|
  {
    free[c] != [] && (c == cpu || (free[cpu] == [] && forall d :: 0 <= d < c ==> free[d] == []))
  }

  /** How many frames are free, on all lists together. */
  ghost function Total(free: seq<seq<Frame>>): nat {
    if free == [] then 0 else Total(free[..|free| - 1]) + |free[|free| - 1]|
  }

  lemma {:induction false} TotalSet(free: seq<seq<Frame>>, c: nat, q: seq<Frame>)
    requires c < |free|
    ensures Total(free[c := q]) + |free[c]| == Total(free) + |q|
  {
    var n := |free| - 1;
    if c == n {
      assert free[c := q][..n] == free[..n];
    } else {
      assert free[c := q][..n] == free[..n][c := q];
      TotalSet(free[..n], c, q);
    }
  }

  lemma {:induction false} TotalNone(free: seq<seq<Frame>>)
    ensures Total(free) == 0 <==> forall c :: 0 <= c < |free| ==> free[c] == []
  {
    if free != [] {
      TotalNone(free[..|free| - 1]);
    }
  }

  ghost function Listing(free: seq<seq<Frame>>): set<Frame> {
    if free == [] then {} else Listing(free[..|free| - 1]) + ItemsOf(free[|free| - 1])
  }

  function ItemsOf(q: seq<Frame>): set<Frame> {
    set f | f in q
  }

  lemma {:induction false} ItemCount(q: seq<Frame>)
    requires forall i, j :: 0 <= i < j < |q| ==> q[i] != q[j]
    ensures |ItemsOf(q)| == |q|
  {
    if q != [] {
      var q0 := q[..|q| - 1];
      ItemCount(q0);
      assert ItemsOf(q) == ItemsOf(q0) + {q[|q| - 1]} && q[|q| - 1] !in q0;
    }
  }

  /** Who is on the lists is on the last of them or on one of the others. */
  lemma OnLast(free: seq<seq<Frame>>, n: nat, f: Frame)
    requires |free| == n + 1
    ensures OnList(free, f) <==> OnList(free[..n], f) || f in free[n]
  {
    if OnList(free[..n], f) {
      var c, i :| 0 <= c < n && 0 <= i < |free[..n][c]| && free[..n][c][i] == f;
      assert free[c][i] == f;
    }
    if OnList(free, f) {
      var c, i :| 0 <= c < |free| && 0 <= i < |free[c]| && free[c][i] == f;
      assert c < n ==> free[..n][c][i] == f;
    }
    if f in free[n] {
      var i :| 0 <= i < |free[n]| && free[n][i] == f;
    }
  }

  lemma NotOnBoth(free: seq<seq<Frame>>, n: nat, f: Frame)
    requires |free| == n + 1 && OnceEach(free)
    ensures OnceEach(free[..n]) && !(OnList(free[..n], f) && f in free[n])
  {
    if OnList(free[..n], f) {
      var c, i :| 0 <= c < n && 0 <= i < |free[..n][c]| && free[..n][c][i] == f;
      assert free[c][i] == f;
    }
  }

  lemma {:induction false} ListingCount(free: seq<seq<Frame>>)
    requires OnceEach(free)
    ensures |Listing(free)| == Total(free)
    ensures forall f :: f in Listing(free) <==> OnList(free, f)
  {
    if free != [] {
      var n := |free| - 1;
      var rest := free[..n];
      ItemCount(free[n]);
      hide OnceEach, OnList;
      NotOnBoth(free, n, 0);
      ListingCount(rest);
      forall f
        ensures f in Listing(free) <==> OnList(free, f)
        ensures !(f in Listing(rest) && f in ItemsOf(free[n]))
      {
        OnLast(free, n, f);
        NotOnBoth(free, n, f);
      }
      assert Listing(rest) !! ItemsOf(free[n]);
    } else {
      assert forall f :: !OnList(free, f);
    }
  }

  /** The frames no one uses. */
  ghost function Unused(s: Sys): set<Frame>
    requires Good(s)
  {
    set f | f in s.frames && f !in s.kernel && Maps(s.pt, f) == {} && s.lost[f] == 0
  }

  /** No frame is forgotten: as many are free as are neither mapped, nor the kernel's, nor lost. */
  lemma FreeAreUnused(s: Sys)
    requires Good(s)
    ensures Total(s.free) == |Unused(s)|
  {
    hide OnceEach, OnList, Total, Entries, Private, Pages;
    ListingCount(s.free);
    forall f
      ensures f in Listing(s.free) <==> f in Unused(s)
    {
      if f in s.frames {
        Partition(s, f);
      }
    }
    assert Listing(s.free) == Unused(s);
  }

  /** At most `n` of the free frames have gone. */
  ghost predicate Spent(before: seq<seq<Frame>>, after: seq<seq<Frame>>, n: nat) {
    Total(after) + n >= Total(before)
  }

  /** How many pages a range of `n` bytes at `a` touches. */
  function PagesOf(a: nat, n: nat): nat {
    if n == 0 then 0 else (a + n - 1) / PGSIZE - a / PGSIZE + 1
  }

  lemma NoPages(a: nat)
    ensures PagesOf(a, 0) == 0
  {}

  lemma MorePages(a: nat, m: nat, n: nat)
    requires m <= n
    ensures PagesOf(a, m) <= PagesOf(a, n)
  {
    if m > 0 {
      assert (a + m - 1) / PGSIZE <= (a + n - 1) / PGSIZE;
    }
  }

  /** The next part of a copy, up to the end of a page, touches one page more. */
  lemma OnePageMore(a: nat, done: nat, n: nat)
    requires n > 0 && (a + done) % PGSIZE + n <= PGSIZE && (done == 0 || (a + done) % PGSIZE == 0)
    ensures PagesOf(a, done + n) == PagesOf(a, done) + 1
  {
    var q := (a + done) / PGSIZE;
    assert (a + done + n - 1) / PGSIZE == q;
    if done > 0 {
      assert (a + done - 1) / PGSIZE == q - 1;
    }
  }

  // ---- The machine ----

  class Machine {
    ghost var frames: set<Frame>
    var pt: PageTables
    var mem: Memory
    var ref: map<Frame, int>
    var free: seq<seq<Frame>>
    var tables: map<Table, Frame>    // the pages the page tables are in
    ghost var kernel: set<Frame>
    ghost var lost: map<Frame, nat>  // uses that ended without a kfree
    ghost var refusals: nat          // how often kalloc has returned 0

    ghost function State(): Sys
      reads this
    {
      Sys(frames, pt, mem, ref, free, kernel, lost)
    }

    ghost predicate Valid()
      reads this
    {
      Good(State()) && Rooted(tables, kernel, pt)
    }

    /** The frames the kernel has in hand, for no table. */
    ghost function Hand(): set<Frame>
      reads this
    {
      Spare(kernel, tables)
    }

    ghost function Sees(): Seen
      reads this
      requires Valid()
    {
      View(State())
    }

    ghost predicate Exhausted()
      reads this
    {
      forall c :: 0 <= c < |free| ==> free[c] == []
    }

    constructor ()
      ensures Valid() && pt == map[] && tables == map[] && kernel == {} && frames == {} && lost == map[]
      ensures refusals == 0
      ensures |free| == NCPU && Total(free) == 0
    {
      frames := {};
      pt := map[];
      mem := map[];
      ref := map[];
      free := seq(NCPU, _ => []);
      tables := map[];
      kernel := {};
      lost := map[];
      refusals := 0;
      new;
      BlankGood(State());
      TotalNone(free);
    }

    /** One frame is handed to the allocator, with a count of one for kfree to take away. */
    method AddFrame(p: Frame, cpu: nat)
      requires Valid() && cpu < NCPU && p !in frames
      modifies this
      ensures Valid() && pt == old(pt) && tables == old(tables) && kernel == old(kernel) && frames == old(frames) + {p}
      ensures lost == old(lost)[p := 0] && refusals == old(refusals) && cpu < |old(free)|
      ensures free == old(free)[cpu := [p] + old(free)[cpu]] && Total(free) == Total(old(free)) + 1
    {
      hide Good, View, Total, Rooted;
      ghost var s := State();
      Outside(s, p);
      NewFrame(s, p, Filled(1));
      ref := ref[p := 1];
      mem := mem[p := Filled(1)];
      frames := frames + {p};
      kernel := kernel + {p};
      lost := lost[p := 0];
      ghost var s1 := State();
      assert s1 == s.(frames := s.frames + {p}, ref := s.ref[p := 1], mem := s.mem[p := Filled(1)],
        kernel := s.kernel + {p},
                      lost := s.lost[p := 0]);
      InHand(s1, p);
      GiveBack(s1, p, cpu, Filled(1));
      var ok := Kfree(cpu, p);
      kernel := kernel - {p};
      assert kernel == old(kernel);
      assert State() == Freed(s1, p, cpu, Filled(1)).(kernel := s1.kernel - {p});
    }

    /** Every frame between `lo` and `hi` comes under the allocator, on one processor's list. */
    method Freerange(lo: nat, hi: nat, cpu: nat)
      requires Valid() && lo <= hi && cpu < NCPU && forall f :: f in frames ==> f < lo
      modifies this
      ensures Valid() && pt == old(pt) && tables == old(tables) && kernel == old(kernel) && refusals == old(refusals)
      ensures forall f :: f in frames <==> f in old(frames) || lo <= f < hi
      ensures Total(free) == Total(old(free)) + hi - lo
    {
      hide Good, View, Total;
      HasLists(State());
      var p := lo;
      while p < hi
        invariant lo <= p <= hi
        invariant Valid() && pt == old(pt) && tables == old(tables) && kernel == old(kernel)
        invariant refusals == old(refusals)
        invariant forall f :: f in frames <==> f in old(frames) || lo <= f < p
        invariant Total(free) == Total(old(free)) + p - lo
      {
        AddFrame(p, cpu);
        p := p + 1;
      }
    }

    /**
     One use of the frame is over; with the last one it goes on this processor's list. It
     panics on a frame that is not the allocator's.
     */
    method Kfree(cpu: nat, g: Frame) returns (ok: bool)
      requires cpu < |free|
      modifies `ref, `mem, `free
      ensures ok <==> g in old(ref)
      ensures State() == if ok then Freed(old(State()), g, cpu, Filled(1)) else old(State())
      ensures Total(free) == Total(old(free)) + if ok && old(ref)[g] == 1 then 1 else 0
    {
      hide Total;
      if g !in ref {
        return false;
      }
      ok := true;
      ref := ref[g := ref[g] - 1];
      if ref[g] == 0 {
        mem := mem[g := Filled(1)];
        TotalSet(free, cpu, [g] + free[cpu]);
        free := free[cpu := [g] + free[cpu]];
      }
    }

    /** A frame from this processor's list or, failing that, from the first other list that has one. */
    method Kalloc(cpu: nat) returns (r: Option<Frame>)
      requires Valid() && cpu < NCPU
      modifies this
      ensures Valid() && Sees() == old(Sees()) && pt == old(pt) && frames == old(frames) && lost == old(lost)
      ensures tables == old(tables) && (r.Some? ==> r.value !in tables.Values && Hand() == old(Hand()) + {r.value})
      ensures r == None <==> old(Exhausted())
      ensures r == None <==> Total(old(free)) == 0
      ensures r == None ==> State() == old(State())
      ensures refusals == old(refusals) + if r == None then 1 else 0
      ensures r.Some? ==> Total(free) == Total(old(free)) - 1
      ensures r.Some? ==>
        && r.value in old(ref) && old(ref)[r.value] == 0 && r.value !in old(kernel)
        && ref == old(ref)[r.value := 1] && mem == old(mem)[r.value := Filled(5)] && kernel == old(kernel) + {r.value}
        && exists c :: 0 <= c < NCPU && FirstList(old(free), cpu, c) && old(free)[c][0] == r.value
             && free == old(free)[c := old(free)[c][1..]]
    {
      hide Good, View, Total, Rooted, Spare;
      HasLists(State());
      TotalNone(free);
      var from := cpu;
      if free[cpu] == [] {
        from := NCPU;
        var antid := 0;
        while antid < NCPU
          invariant 0 <= antid <= NCPU && from == NCPU
          invariant forall c :: 0 <= c < antid ==> free[c] == []
        {
          if antid != cpu && free[antid] != [] {
            from := antid;
            break;
          }
          antid := antid + 1;
        }
      }
      if from == NCPU {
        refusals := refusals + 1;
        return None;
      }
      assert FirstList(free, cpu, from);
      ghost var s := State();
      TakeFrame(s, from, Filled(5));
      TopIsFree(s, from);
      var g := free[from][0];
      TotalSet(free, from, free[from][1..]);
      free := free[from := free[from][1..]];
      ref := ref[g := 1];
      mem := mem[g := Filled(5)];
      RootedMore(tables, kernel, pt, g);
      kernel := kernel + {g};
      assert State() == Took(s, from, Filled(5));
      return Some(g);
    }

    /** kalloc and memset: a frame of zeros in the kernel's hands. */
    method Zeroed(cpu: nat) returns (r: Option<Frame>)
      requires Valid() && cpu < NCPU
      modifies this
      ensures Valid() && Sees() == old(Sees()) && pt == old(pt) && frames == old(frames) && lost == old(lost)
      ensures tables == old(tables) && Kept(old(State()), State())
      ensures r == None <==> Total(old(free)) == 0
      ensures r == None ==> State() == old(State())
      ensures refusals == old(refusals) + if r == None then 1 else 0
      ensures r.Some? ==> Total(free) == Total(old(free)) - 1
      ensures r.Some? ==>
        && r.value !in old(kernel) && r.value in kernel && r.value !in tables.Values && r.value !in old(Hand())
        && r.value in mem && mem[r.value] == Filled(0) && Hand() == old(Hand()) + {r.value}
    {
      hide Good, View, Total, Rooted, Spare;
      r := Kalloc(cpu);
      if r.Some? {
        var g := r.value;
        NotInHand(old(kernel), tables, g);
        ghost var s := State();
        RewriteKernelFrame(s, g, Filled(0));
        mem := mem[g := Filled(0)];
        assert State() == s.(mem := s.mem[g := Filled(0)]);
      }
    }

    /** uvmcreate: the empty top table of a new process. */
    method Uvmcreate(cpu: nat, pid: nat) returns (ok: bool)
      requires Valid() && cpu < NCPU && Root(pid) !in tables
      modifies this
      ensures Valid() && Sees() == old(Sees()) && pt == old(pt) && frames == old(frames) && lost == old(lost)
      ensures Hand() == old(Hand())
      ensures ok <==> Total(old(free)) >= 1
      ensures refusals == old(refusals) + if ok then 0 else 1
      ensures !ok ==> State() == old(State()) && tables == old(tables)
      ensures ok ==> tables.Keys == old(tables).Keys + {Root(pid)} && Total(free) == Total(old(free)) - 1
    {
      hide Good, View, Total, Rooted, Spare;
      ok := AddTable(cpu, Root(pid));
    }

    /** A page for table `t`. */
    method AddTable(cpu: nat, t: Table) returns (ok: bool)
      requires Valid() && cpu < NCPU && t !in tables
      requires t.Root? || (Root(t.pid) in tables && (t.Low? ==> Mid(t.pid, t.i / 0x200) in tables))
      modifies this
      ensures Valid() && Sees() == old(Sees()) && pt == old(pt) && frames == old(frames) && lost == old(lost)
      ensures Kept(old(State()), State()) && Hand() == old(Hand())
      ensures ok <==> Total(old(free)) >= 1
      ensures refusals == old(refusals) + if ok then 0 else 1
      ensures !ok ==> State() == old(State()) && tables == old(tables)
      ensures ok ==> tables.Keys == old(tables).Keys + {t} && Total(free) == Total(old(free)) - 1
    {
      hide Good, View, Total, Rooted, Spare;
      ghost var hand := Hand();
      var page := Zeroed(cpu);
      if page == None {
        return false;
      }
      var g := page.value;
      RootedAdd(tables, kernel, pt, t, g);
      tables := tables[t := g];
      assert hand + {g} - {g} == hand;
      return true;
    }

    /**
     walk with alloc: the tables that are missing on the way to an entry are added, from the
     top. One that has been added stays even when the next cannot be had.
     */
    method Walk(cpu: nat, k: Key) returns (ok: bool)
      requires Valid() && cpu < NCPU && Root(k.pid) in tables
      modifies this
      ensures Valid() && Sees() == old(Sees()) && pt == old(pt) && frames == old(frames) && lost == old(lost)
      ensures Kept(old(State()), State()) && Hand() == old(Hand())
      ensures ok <==> Total(old(free)) >= Missing(old(tables).Keys, k)
      ensures refusals == old(refusals) + if ok then 0 else 1
      ensures ok ==> tables.Keys == WithPath(old(tables).Keys, k)
      ensures ok ==> Total(free) == Total(old(free)) - Missing(old(tables).Keys, k)
      ensures !ok ==> Total(free) == 0 && old(tables).Keys <= tables.Keys <= WithPath(old(tables).Keys, k)
      ensures Extended(old(tables).Keys, tables.Keys)
    {
      hide Good, View, Total, Rooted, Spare;
      ok := true;
      if MidOf(k) !in tables {
        ok := AddTable(cpu, MidOf(k));
        if !ok {
          return;
        }
      }
      if LowOf(k) !in tables {
        ok := AddTable(cpu, LowOf(k));
      }
    }

    /** One mapped page goes, with its use of the frame. */
    method DropPage(cpu: nat, k: Key)
      requires Valid() && cpu < NCPU && k in pt
      modifies this
      ensures Valid() && Sees() == old(Sees()) - {k} && pt == old(pt) - {k}
      ensures frames == old(frames) && lost == old(lost) && kernel == old(kernel) && refusals == old(refusals)
      ensures tables == old(tables) && Spent(old(free), free, 0)
    {
      hide Good, View, Total, Rooted;
      ghost var s := State();
      HasLists(s);
      DropMapping(s, k, cpu, Filled(1));
      var freed := Kfree(cpu, pt[k].frame);
      RootedUnmap(tables, kernel, pt, pt - {k});
      pt := pt - {k};
      assert State() == Dropped(s, k, cpu, Filled(1));
    }

    /** Pages `lo` to `hi` of a process go; those not mapped are skipped. */
    method Uvmunmap(cpu: nat, pid: nat, lo: nat, hi: nat)
      requires Valid() && cpu < NCPU && lo <= hi
      modifies this
      ensures Valid() && Sees() == Without(old(Sees()), pid, lo, hi) && pt == Without(old(pt), pid, lo, hi)
      ensures frames == old(frames) && lost == old(lost) && kernel == old(kernel) && refusals == old(refusals)
      ensures tables == old(tables) && Spent(old(free), free, 0)
    {
      hide Good, View, Total, Rooted, Without;
      var a := lo;
      WithoutNone(Sees(), pid, lo, lo);
      WithoutNone(pt, pid, lo, lo);
      SameKeys(State());
      while a < hi
        invariant lo <= a <= hi
        invariant Valid() && Sees() == Without(old(Sees()), pid, lo, a) && pt == Without(old(pt), pid, lo, a)
        invariant frames == old(frames) && lost == old(lost) && kernel == old(kernel) && refusals == old(refusals)
        invariant tables == old(tables) && Spent(old(free), free, 0)
      {
        var k := Key(pid, a);
        WithoutStep(old(Sees()), pid, lo, a);
        WithoutStep(old(pt), pid, lo, a);
        if k in pt {
          DropPage(cpu, k);
        }
        a := a + 1;
      }
    }

    /** Returns the new size. */
    method Uvmdealloc(cpu: nat, pid: nat, oldsz: nat, newsz: nat) returns (sz: nat)
      requires Valid() && cpu < NCPU
      modifies this
      ensures Valid() && sz == (if newsz < oldsz then newsz else oldsz)
      ensures Sees() == ShrunkTo(old(Sees()), pid, oldsz, newsz) && pt == ShrunkTo(old(pt), pid, oldsz, newsz)
      ensures frames == old(frames) && lost == old(lost) && kernel == old(kernel) && refusals == old(refusals)
      ensures tables == old(tables) && Spent(old(free), free, 0)
    {
      hide Good, View, Total, Rooted, Without, ShrunkTo, RoundUp;
      WithoutIsShrunkTo(Sees(), pid, oldsz, newsz);
      WithoutIsShrunkTo(pt, pid, oldsz, newsz);
      if newsz >= oldsz {
        RoundUpMore(oldsz, newsz);
      }
      if RoundUp(newsz) >= RoundUp(oldsz) {
        WithoutNone(pt, pid, RoundUp(newsz), RoundUp(oldsz));
        WithoutNone(Sees(), pid, RoundUp(newsz), RoundUp(oldsz));
      }
      if newsz >= oldsz {
        return oldsz;
      }
      if RoundUp(newsz) < RoundUp(oldsz) {
        Uvmunmap(cpu, pid, RoundUp(newsz), RoundUp(oldsz));
      }
      return newsz;
    }

    /** A zeroed page for one process, in the order kalloc, memset, mappages; mappages may fail. */
    method AddPage(cpu: nat, k: Key) returns (ok: bool)
      requires Valid() && cpu < NCPU && k !in pt && Root(k.pid) in tables
      modifies this
      ensures Valid() && frames == old(frames) && lost == old(lost) && Hand() == old(Hand())
      ensures ok ==> Sees() == old(Sees())[k := Filled(0)]
      ensures ok ==> k in pt && pt == old(pt)[k := pt[k]] && pt[k].w && pt[k].u
      ensures !ok ==> Sees() == old(Sees()) && pt == old(pt)
      ensures ok <==> Total(old(free)) >= 1 + Missing(old(tables).Keys, k)
      ensures refusals == old(refusals) + if ok then 0 else 1
      ensures ok ==> tables.Keys == WithPath(old(tables).Keys, k)
      ensures ok ==> Total(free) == Total(old(free)) - 1 - Missing(old(tables).Keys, k)
      ensures Extended(old(tables).Keys, tables.Keys)
    {
      hide Good, View, Total, Rooted, Spare;
      ghost var hand := Hand();
      var page := Zeroed(cpu);
      if page == None {
        return false;
      }
      var g := page.value;
      InHand(State(), g);
      ok := Walk(cpu, k);
      ghost var s2 := State();
      InHand(s2, g);
      NoTable(kernel, tables, g);
      assert hand + {g} - {g} == hand;
      RootedLess(tables, kernel, pt, g);
      if !ok {
        GiveBack(s2, g, cpu, Filled(1));
        var freed := Kfree(cpu, g);
        kernel := kernel - {g};
        assert State() == Freed(s2, g, cpu, Filled(1)).(kernel := s2.kernel - {g});
        return false;
      }
      MapFresh(s2, k, g, true);
      RootedMap(tables, kernel - {g}, pt, k, Pte(g, true, false, true));
      pt := pt[k := Pte(g, true, false, true)];
      kernel := kernel - {g};
      assert State() == Mapped(s2, k, g, true);
    }

    /** One page of growing. A page that is there already makes mappages panic, once kalloc has given a frame. */
    method GrowPage(cpu: nat, k: Key) returns (ok: bool, panicked: bool)
      requires Valid() && cpu < NCPU && Root(k.pid) in tables
      modifies this
      ensures Valid() && frames == old(frames) && lost == old(lost) && Extended(old(tables).Keys, tables.Keys)
      ensures panicked ==> k in old(pt) && refusals == old(refusals) && !ok && Total(free) == Total(old(free)) - 1
      ensures !panicked ==> Hand() == old(Hand()) && refusals == old(refusals) + if ok then 0 else 1
      ensures ok ==> k !in old(pt) && Sees() == old(Sees())[k := Filled(0)]
      ensures ok ==> k in pt && pt == old(pt)[k := pt[k]] && pt[k].w && pt[k].u
      ensures ok ==> tables.Keys == WithPath(old(tables).Keys, k)
      ensures ok ==> Total(free) == Total(old(free)) - 1 - Missing(old(tables).Keys, k)
      ensures !ok && !panicked ==>
        Sees() == old(Sees()) && pt == old(pt) && Total(old(free)) < 1 + Missing(old(tables).Keys, k)
    {
      hide Good, View, Total, Rooted, Spare;
      if k in pt {
        var page := Kalloc(cpu);
        return false, page != None;
      }
      ok := AddPage(cpu, k);
      panicked := false;
    }

    /** The loop of growing: pages from `first` up to `newsz` bytes, or none of them. */
    method GrowPages(cpu: nat, pid: nat, first: nat, newsz: nat) returns (ok: bool, panicked: bool)
      requires Valid() && cpu < NCPU && Root(pid) in tables && first <= RoundUp(newsz)
      modifies this
      ensures Valid() && frames == old(frames) && lost == old(lost) && !(ok && panicked)
      ensures Extended(old(tables).Keys, tables.Keys) && (!panicked ==> Hand() == old(Hand()))
      ensures refusals == old(refusals) + if ok || panicked then 0 else 1
      ensures panicked ==> exists v: nat :: first <= v < RoundUp(newsz) && Key(pid, v) in old(pt)
      ensures panicked ==> Spent(old(free), free, NeedGrow(old(tables).Keys, pid, first, RoundUp(newsz)))
      ensures ok ==> forall v: nat :: first <= v < RoundUp(newsz) ==> Key(pid, v) !in old(pt)
      ensures ok ==>
        && Sees() == Grown(old(Sees()), pid, first, RoundUp(newsz), Filled(0))
        && Users(pt) == Grown(Users(old(pt)), pid, first, RoundUp(newsz), true)
        && tables.Keys == HaveGrow(old(tables).Keys, pid, first, RoundUp(newsz))
        && Total(free) == Total(old(free)) - NeedGrow(old(tables).Keys, pid, first, RoundUp(newsz))
      ensures !ok && !panicked ==>
        && Sees() == old(Sees()) && pt == old(pt)
        && Total(old(free)) < NeedGrow(old(tables).Keys, pid, first, RoundUp(newsz))
    {
      hide Good, View, Without, Users, Total, Rooted, Spare, Grown, WithPath, Missing, Extended;
      ghost var have := tables.Keys;
      ExtendedSelf(have);
      WithoutNone(pt, pid, first, first);
      GrownNext(Sees(), pid, first, first, Filled(0));
      GrownNext(Users(pt), pid, first, first, true);
      var a := first;
      while a * PGSIZE < newsz
        invariant first <= a <= RoundUp(newsz) && Root(pid) in have && have <= tables.Keys
        invariant Valid() && frames == old(frames) && lost == old(lost) && refusals == old(refusals)
        invariant Sees() == Grown(old(Sees()), pid, first, a, Filled(0)) && Hand() == old(Hand())
        invariant Without(pt, pid, first, a) == old(pt)
        invariant Users(pt) == Grown(Users(old(pt)), pid, first, a, true)
        invariant forall v: nat :: first <= v < a ==> Key(pid, v) !in old(pt)
        invariant Extended(have, tables.Keys) && tables.Keys == HaveGrow(have, pid, first, a)
        invariant Total(free) == Total(old(free)) - NeedGrow(have, pid, first, a)
      {
        UnaddedPage(pt, old(pt), pid, first, a);
        NeedGrowMore(have, pid, first, a + 1, RoundUp(newsz));
        ghost var before, had := pt, tables.Keys;
        ok, panicked := GrowPage(cpu, Key(pid, a));
        ExtendedMore(have, had, tables.Keys);
        if panicked {
          return;
        }
        if !ok {
          GrownBack(old(Sees()), pid, first, a, Filled(0));
          RoundUpWhole(first);
          RoundUpWhole(a);
          WithoutIsShrunkTo(Sees(), pid, a * PGSIZE, first * PGSIZE);
          WithoutIsShrunkTo(pt, pid, a * PGSIZE, first * PGSIZE);
          var back := Uvmdealloc(cpu, pid, a * PGSIZE, first * PGSIZE);
          return;
        }
        GrownNext(old(Sees()), pid, first, a, Filled(0));
        GrownNext(Users(old(pt)), pid, first, a, true);
        GrownTables(before, pid, first, a, pt[Key(pid, a)]);
        UsersAdded(before, Key(pid, a), pt[Key(pid, a)]);
        a := a + 1;
      }
      return true, false;
    }

    /**
     Grows a process to `newsz` bytes, or leaves it as it was and returns 0. A page of the
     new range that is mapped already makes mappages panic.
     */
    method Uvmalloc(cpu: nat, pid: nat, oldsz: nat, newsz: nat) returns (sz: nat, panicked: bool)
      requires Valid() && cpu < NCPU && Root(pid) in tables
      modifies this
      ensures Valid() && frames == old(frames) && lost == old(lost) && refusals >= old(refusals)
      ensures Extended(old(tables).Keys, tables.Keys) && (!panicked ==> Hand() == old(Hand()))
      ensures newsz < oldsz ==> sz == oldsz && !panicked && State() == old(State()) && tables == old(tables)
      ensures newsz < oldsz || newsz == 0 ==> refusals == old(refusals)
      ensures newsz >= oldsz && refusals == old(refusals) ==>
        (panicked <==> exists k :: k in PagesIn(pid, oldsz, newsz) && k in old(pt))
      ensures newsz >= oldsz && refusals == old(refusals) && !panicked ==>
        && sz == newsz && Sees() == GrownTo(old(Sees()), pid, oldsz, newsz, Filled(0))
        && Users(pt) == GrownTo(Users(old(pt)), pid, oldsz, newsz, true)
        && tables.Keys == HaveGrow(old(tables).Keys, pid, RoundUp(oldsz), RoundUp(newsz))
        && Total(free) == Total(old(free)) - NeedGrow(old(tables).Keys, pid, RoundUp(oldsz), RoundUp(newsz))
      ensures panicked ==>
        Spent(old(free), free, NeedGrow(old(tables).Keys, pid, RoundUp(oldsz), RoundUp(newsz)))
      ensures newsz >= oldsz && refusals != old(refusals) ==>
        sz == 0 && !panicked && Sees() == old(Sees()) && pt == old(pt)
      ensures newsz >= oldsz && !panicked ==>
        (refusals != old(refusals) <==>
           Total(old(free)) < NeedGrow(old(tables).Keys, pid, RoundUp(oldsz), RoundUp(newsz)))
    {
      hide Good, View, Users, Total, Rooted, Spare, Grown, GrownTo, PagesIn, RoundUp;
      if newsz < oldsz {
        return oldsz, false;
      }
      RoundUpMore(oldsz, newsz);
      GrownIsGrownTo(Sees(), pid, oldsz, newsz, Filled(0));
      GrownIsGrownTo(Users(pt), pid, oldsz, newsz, true);
      NoneInRange(pt, pid, oldsz, newsz);
      var ok;
      ok, panicked := GrowPages(cpu, pid, RoundUp(oldsz), newsz);
      sz := if ok then newsz else 0;
    }

    /** The page becomes copy-on-write if it was writable. */
    method MarkPage(k: Key)
      requires Valid() && k in pt
      modifies this
      ensures Valid() && Sees() == old(Sees()) && State() == old(State()).(pt := pt) && tables == old(tables)
      ensures k in pt && pt == old(pt)[k := pt[k]] && !pt[k].w && pt[k].f
      ensures pt[k].frame == old(pt)[k].frame && pt[k].u == old(pt)[k].u && refusals == old(refusals)
    {
      hide Good, View, Rooted;
      if pt[k].w {
        ghost var s := State();
        MarkShared(s, k);
        RootedUnmap(tables, kernel, pt, pt[k := pt[k].(w := false, f := true)]);
        pt := pt[k := pt[k].(w := false, f := true)];
        assert State() == Marked(s, k);
      }
      MarkedIfNotWritable(State(), k);
    }

    /**
     One page of fork: the parent's page becomes copy-on-write if it was writable, and the
     child maps the same frame.
     */
    method SharePage(cpu: nat, k: Key, j: Key) returns (ok: bool)
      requires Valid() && cpu < NCPU && k in pt && j !in pt && Root(j.pid) in tables
      modifies this
      ensures Valid() && frames == old(frames) && lost == old(lost) && Hand() == old(Hand())
      ensures Sees() == if ok then old(Sees())[j := old(Sees())[k]] else old(Sees())
      ensures ok ==> j in pt && SameFrames(old(pt)[j := pt[j]], pt) && pt[j].u == old(pt)[k].u
      ensures ok ==> k in pt && !pt[k].w && forall i :: i in old(pt) && i != k ==> i in pt && pt[i] == old(pt)[i]
      ensures !ok ==> SameFrames(old(pt), pt)
      ensures ok <==> Total(old(free)) >= Missing(old(tables).Keys, j)
      ensures refusals == old(refusals) + if ok then 0 else 1
      ensures ok ==> tables.Keys == WithPath(old(tables).Keys, j)
      ensures ok ==> Total(free) == Total(old(free)) - Missing(old(tables).Keys, j)
      ensures Extended(old(tables).Keys, tables.Keys)
      ensures !ok ==> tables.Keys <= WithPath(old(tables).Keys, j)
    {
      hide Good, View, Total, Rooted, Spare;
      MarkPage(k);
      ok := Walk(cpu, j);
      if ok {
        ghost var s := State();
        ShareMapping(s, k, j);
        RootedMap(tables, kernel, pt, j, pt[k]);
        pt := pt[j := pt[k]];
        ref := ref[pt[k].frame := ref[pt[k].frame] + 1];
        assert State() == Shared(s, k, j);
      }
    }

    /**
     fork: the first `n` pages of the parent are shared with the child. The child sees
     a copy; if a page-table page cannot be had, what it had got is taken away again.
     */
    method Uvmcopy(cpu: nat, parent: nat, child: nat, n: nat) returns (ok: bool)
      requires Valid() && cpu < NCPU && parent != child && Root(child) in tables
      requires forall v: nat :: v < n ==> Key(child, v) !in pt
      modifies this
      ensures Valid() && frames == old(frames) && lost == old(lost) && Hand() == old(Hand())
      ensures ok ==>
        Sees() == Forked(old(Sees()), parent, child, n) && Users(pt) == Forked(Users(old(pt)), parent, child, n)
      ensures !ok ==> Sees() == old(Sees()) && SameFrames(old(pt), pt)
      ensures ok <==> Total(old(free)) >= NeedFork(old(tables).Keys, old(pt).Keys, parent, child, n)
      ensures refusals == old(refusals) + if ok then 0 else 1
      ensures ok ==> tables.Keys == HaveFork(old(tables).Keys, old(pt).Keys, parent, child, n)
      ensures ok ==> Total(free) == Total(old(free)) - NeedFork(old(tables).Keys, old(pt).Keys, parent, child, n)
      ensures Extended(old(tables).Keys, tables.Keys)
      ensures forall t :: t in tables && t !in old(tables) ==> t.pid == child
      ensures ok ==> forall v: nat :: v < n && Key(parent, v) in pt ==> !pt[Key(parent, v)].w
    {
      hide Good, View, Without, SameFrames, Users, Total, Rooted, Spare, Forked, Missing, Extended, Spent, Filled;
      ghost var have, keys := tables.Keys, pt.Keys;
      ExtendedSelf(have);
      ForkedNext(Sees(), parent, child, 0);
      ForkedNext(Users(pt), parent, child, 0);
      var i := 0;
      SameKeys(State());
      WithoutNone(pt, child, 0, 0);
      FramesSame(pt);
      while i < n
        invariant 0 <= i <= n
        invariant Valid() && frames == old(frames) && lost == old(lost) && refusals == old(refusals)
        invariant Sees() == Forked(old(Sees()), parent, child, i)
        invariant SameFrames(old(pt), Without(pt, child, 0, i))
        invariant Users(pt) == Forked(Users(old(pt)), parent, child, i)
        invariant Hand() == old(Hand()) && Root(child) in have && have <= tables.Keys
        invariant Extended(have, tables.Keys) && tables.Keys == HaveFork(have, keys, parent, child, i)
        invariant forall t :: t in tables && t !in have ==> t.pid == child
        invariant Total(free) == Total(old(free)) - NeedFork(have, keys, parent, child, i)
        invariant forall v: nat :: v < i && Key(parent, v) in pt ==> !pt[Key(parent, v)].w
      {
        var k, j := Key(parent, i), Key(child, i);
        ForkedAt(old(Sees()), parent, child, i, k);
        ForkedAt(old(Sees()), parent, child, i, j);
        ForkedNext(old(Sees()), parent, child, i);
        ForkedNext(Users(old(pt)), parent, child, i);
        NeedForkMore(have, keys, parent, child, i + 1, n);
        SameKeys(State());
        ghost var before, had := pt, tables.Keys;
        if k in pt {
          ok := SharePage(cpu, k, j);
          ExtendedMore(have, had, tables.Keys);
          if !ok {
            FramesNotShared(old(pt), before, pt, child, i);
            Uvmunmap(cpu, child, 0, i);
            ForkedBack(old(Sees()), parent, child, i);
            return false;
          }
          FramesShared(old(pt), before, pt, child, i);
          UsersShared(before, pt, k, j);
          ForkedAt(Users(old(pt)), parent, child, i, k);
        } else {
          WithoutStep(pt, child, 0, i);
        }
        i := i + 1;
      }
      return true;
    }

    /**
     A private writable frame for the page: the frame it has when no one else uses
     that, else a copy. Nothing changes when the page is not the user's or no frame
     is free.
     */
    method Cowalloc(cpu: nat, k: Key) returns (r: Option<Frame>)
      requires Valid() && cpu < NCPU
      modifies this
      ensures Valid() && frames == old(frames) && lost == old(lost) && kernel == old(kernel) && Sees() == old(Sees())
      ensures tables == old(tables)
      ensures r == None <==> k !in old(pt) || !old(pt)[k].u || (old(ref)[old(pt)[k].frame] != 1 && old(Exhausted()))
      ensures r == None ==> State() == old(State())
      ensures r.Some? ==> k in pt && pt == old(pt)[k := pt[k]] && pt[k] == Pte(r.value, true, false, true)
      ensures refusals == old(refusals) + if r == None && k in old(pt) && old(pt)[k].u then 1 else 0
      ensures Spent(old(free), free, 1) && (refusals != old(refusals) ==> Total(old(free)) == 0)
    {
      hide Good, View, Total, Rooted;
      HasLists(State());
      if k !in pt || !pt[k].u {
        return None;
      }
      var pa := pt[k].frame;
      ghost var s0 := State();
      Reachable(s0, k);
      if ref[pa] == 1 {
        OwnMapping(s0, k);
        RootedUnmap(tables, kernel, pt, pt[k := pt[k].(w := true, f := false)]);
        pt := pt[k := pt[k].(w := true, f := false)];
        assert State() == Owned(s0, k);
        return Some(pa);
      }
      var page := Kalloc(cpu);
      if page == None {
        return None;
      }
      CopyFrame(cpu, k, page.value);
      return page;
    }

    /** memmove to the new frame, whose entry replaces the old one, and kfree of the old frame. */
    method CopyFrame(cpu: nat, k: Key, g: Frame)
      requires Valid() && cpu < NCPU && k in pt && g in kernel && g !in tables.Values
      requires pt[k].frame in ref && ref[pt[k].frame] >= 2
      modifies this
      ensures Valid() && frames == old(frames) && lost == old(lost) && Sees() == old(Sees())
      ensures kernel == old(kernel) - {g} && tables == old(tables) && refusals == old(refusals)
      ensures pt == old(pt)[k := Pte(g, true, false, old(pt)[k].u)] && Spent(old(free), free, 0)
    {
      hide Good, View, Total, Rooted;
      var pa := pt[k].frame;
      ghost var s1 := State();
      Reachable(s1, k);
      HasLists(s1);
      CopyFilled(s1, k, g);
      RootedLess(tables, kernel, pt, g);
      RootedUnmap(tables, kernel - {g}, pt, pt[k := Pte(g, true, false, pt[k].u)]);
      mem := mem[g := mem[pa]];
      pt := pt[k := Pte(g, true, false, pt[k].u)];
      kernel := kernel - {g};
      var freed := Kfree(cpu, pa);
      assert State() == Copied(s1.(mem := s1.mem[g := s1.mem[pa]]), k, g);
    }

    /** kalloc refuses a frame to a fault on this page: the copy of a shared one, or a new one and its tables. */
    ghost predicate Refuses(k: Key)
      reads this
    {
      if k in pt && pt[k].f then pt[k].u && pt[k].frame in ref && ref[pt[k].frame] != 1 && Total(free) == 0
      else if k in pt then Total(free) == 0
      else Total(free) < 1 + Missing(tables.Keys, k)
    }

    /**
     A page fault at `va`: a copy-on-write page below the process size gets its own
     frame; a page above the stack pointer and below the process size or the start
     of shared memory gets its first one. A page that is mapped there already and
     not copy-on-write makes mappages panic.
     */
    method Fault(cpu: nat, pid: nat, va: nat, sz: nat, shm: nat, sp: nat) returns (outcome: Outcome)
      requires Valid() && cpu < NCPU && Root(pid) in tables
      modifies this
      ensures Valid() && frames == old(frames) && lost == old(lost) && Extended(old(tables).Keys, tables.Keys)
      ensures outcome != Panicked ==> Hand() == old(Hand())
      ensures refusals != old(refusals) <==>
        old(Refuses(Key(pid, va / PGSIZE))) && Resolvable(old(pt), Key(pid, va / PGSIZE), va, sz, shm, sp)
      ensures var k := Key(pid, va / PGSIZE);
        && (outcome == Resumed ==> (va < sz || va < shm) && Sees() == Touched(old(Sees()), k, Filled(0)))
        && (outcome == Resumed ==> k in pt && pt == old(pt)[k := pt[k]] && pt[k].w && pt[k].u)
        && (outcome != Resumed ==> Sees() == old(Sees()) && pt == old(pt))
        && (outcome == Panicked <==>
             refusals == old(refusals) && k in old(pt) && !old(pt)[k].f && Resolvable(old(pt), k, va, sz, shm, sp))
        && (outcome == Killed <==> refusals > old(refusals) || !Resolvable(old(pt), k, va, sz, shm, sp))
        && Users(pt) == if outcome == Resumed then Touched(Users(old(pt)), k, true) else Users(old(pt))
      ensures refusals >= old(refusals)
      ensures Spent(old(free), free, 3)
    {
      hide Good, View, Total, Rooted, Spare;
      TotalNone(free);
      var k := Key(pid, va / PGSIZE);
      if k in pt && pt[k].f {
        if va >= sz {
          return Killed;
        }
        Reachable(State(), k);
        var r := Cowalloc(cpu, k);
        return if r == None then Killed else Resumed;
      }
      if !(AboveStack(sp, va) && (va < sz || va < shm)) {
        return Killed;
      }
      if k in pt {
        var page := Kalloc(cpu);
        return if page == None then Killed else Panicked;
      }
      var ok := AddPage(cpu, k);
      return if ok then Resumed else Killed;
    }

    /** A store instruction of a user program, repeated after the fault it may take. */
    method Store(cpu: nat, pid: nat, va: nat, b: Byte, sz: nat, shm: nat, sp: nat) returns (outcome: Outcome)
      requires Valid() && cpu < NCPU && Root(pid) in tables
      modifies this
      ensures Valid() && frames == old(frames) && lost == old(lost) && Extended(old(tables).Keys, tables.Keys)
      ensures outcome != Panicked ==> Hand() == old(Hand())
      ensures Spent(old(free), free, 3)
      ensures var k := Key(pid, va / PGSIZE);
        !(k in old(pt) && old(pt)[k].u && old(pt)[k].w) ==>
          (refusals != old(refusals) <==> old(Refuses(k)) && Resolvable(old(pt), k, va, sz, shm, sp))
      ensures outcome != Resumed ==> Sees() == old(Sees())
      ensures UserPage(old(pt), pid, va) && old(pt)[Key(pid, va / PGSIZE)].w ==>
        outcome == Resumed && refusals == old(refusals)
      ensures var k := Key(pid, va / PGSIZE);
        !(k in old(pt) && old(pt)[k].u && old(pt)[k].w) ==>
          && (outcome == Panicked <==>
               refusals == old(refusals) && k in old(pt) && !old(pt)[k].f && Resolvable(old(pt), k, va, sz, shm, sp))
          && (outcome == Killed <==> refusals > old(refusals) || !Resolvable(old(pt), k, va, sz, shm, sp))
      ensures refusals >= old(refusals) && (outcome == Resumed ==> refusals == old(refusals))
      ensures outcome == Resumed ==>
        var k := Key(pid, va / PGSIZE); k in pt && pt == old(pt)[k := pt[k]] && pt[k].w && pt[k].u
      ensures Users(pt) == if outcome == Resumed then Touched(Users(old(pt)), Key(pid, va / PGSIZE), true)
        else Users(old(pt))
      ensures outcome == Resumed ==>
        var k := Key(pid, va / PGSIZE);
        var v := Touched(old(Sees()), k, Filled(0));
        |v[k]| == PGSIZE && Sees() == v[k := Patched(v[k], va % PGSIZE, [b])]
    {
      hide Good, View, Users, Resolvable, AboveStack, Total, Rooted, Spare;
      if Key(pid, va / PGSIZE) in pt {
        NoneTouched(pt, Key(pid, va / PGSIZE));
      }
      var k := Key(pid, va / PGSIZE);
      outcome := Resumed;
      if !(k in pt && pt[k].w && pt[k].u) {
        outcome := Fault(cpu, pid, va, sz, shm, sp);
      }
      if outcome == Resumed {
        ghost var s := State();
        var f := pt[k].frame;
        Reachable(s, k);
        var page := Patched(mem[f], va % PGSIZE, [b]);
        StorePrivate(s, k, page);
        mem := mem[f := page];
        assert State() == s.(mem := s.mem[f := page]);
      }
    }

    /** The page of a table under which nothing hangs goes back. */
    method DropTable(cpu: nat, t: Table)
      requires Valid() && cpu < NCPU && t in tables && NoneBelow(tables, t) && forall k :: k in pt ==> k.pid != t.pid
      modifies this
      ensures Valid() && Sees() == old(Sees()) && pt == old(pt) && frames == old(frames) && lost == old(lost)
      ensures tables == old(tables) - {t} && Hand() == old(Hand()) && refusals == old(refusals)
      ensures Total(free) == Total(old(free)) + 1
    {
      hide Good, View, Total, Rooted, Spare, NoneBelow;
      ghost var s := State();
      RootedDrop(tables, kernel, pt, t);
      InHand(s, tables[t]);
      GiveBack(s, tables[t], cpu, Filled(1));
      var freed := Kfree(cpu, tables[t]);
      kernel := kernel - {tables[t]};
      assert State() == Freed(s, tables[t], cpu, Filled(1)).(kernel := s.kernel - {tables[t]});
      tables := tables - {t};
    }

    /** freewalk: the pages of a process's tables go back, the lower ones first. */
    method Freewalk(cpu: nat, pid: nat)
      requires Valid() && cpu < NCPU && forall k :: k in pt ==> k.pid != pid
      modifies this
      ensures Valid() && Sees() == old(Sees()) && pt == old(pt) && frames == old(frames) && lost == old(lost)
      ensures tables == OtherTables(old(tables), pid) && Hand() == old(Hand()) && refusals == old(refusals)
      ensures Total(free) == Total(old(free)) + |old(tables)| - |tables| && |tables| <= |old(tables)|
    {
      hide Good, View, Total, Rooted, Spare;
      while exists t :: t in tables && t.pid == pid
        invariant Valid() && Sees() == old(Sees()) && pt == old(pt) && frames == old(frames) && lost == old(lost)
        invariant OtherTables(tables, pid) == OtherTables(old(tables), pid) && Hand() == old(Hand())
        invariant refusals == old(refusals) && |tables| <= |old(tables)|
        invariant Total(free) == Total(old(free)) + |old(tables)| - |tables|
        decreases |tables|
      {
        var t := Lowest(pid);
        ghost var before := tables;
        DropTable(cpu, t);
        OthersLess(before, t, pid);
      }
      NoTables(tables, pid);
    }

    /** A table of the process under which no other hangs. */
    method Lowest(pid: nat) returns (t: Table)
      requires exists t :: t in tables && t.pid == pid
      ensures t in tables && t.pid == pid && NoneBelow(tables, t)
    {
      if exists t :: t in tables && t.Low? && t.pid == pid {
        t :| t in tables && t.Low? && t.pid == pid;
      } else if exists t :: t in tables && t.Mid? && t.pid == pid {
        t :| t in tables && t.Mid? && t.pid == pid;
      } else {
        t :| t in tables && t.pid == pid;
      }
    }

    /** What the tables of a process still map is discarded with them: those uses are never taken off the counts. */
    method Discards(pid: nat)
      requires Valid()
      modifies this
      ensures Valid() && Sees() == Others(old(Sees()), pid) && pt == Others(old(pt), pid)
      ensures State() == Discarded(old(State()), pid) && tables == old(tables) && refusals == old(refusals)
      ensures lost == old(lost) <==> forall k :: k in old(pt) ==> k.pid != pid
      ensures lost.Keys == old(lost).Keys && forall f :: f in lost ==> lost[f] >= old(lost)[f]
    {
      hide Good, View, Rooted;
      ghost var s := State();
      Discard(s, pid);
      RootedUnmap(tables, kernel, pt, Others(pt, pid));
      pt := Others(pt, pid);
      lost := map f | f in lost :: lost[f] + |MapsOf(s.pt, pid, f)|;
      assert State() == Discarded(s, pid);
    }

    /**
     The memory of a process that ends: the pages below its size are freed, and
     freewalk discards the tables with whatever they still map, and gives their pages back. No
     other process sees anything. Uses of frames are lost exactly if a page was mapped at or
     above the size.
     */
    method Uvmfree(cpu: nat, pid: nat, sz: nat)
      requires Valid() && cpu < NCPU
      modifies this
      ensures Valid() && Sees() == Others(old(Sees()), pid) && pt == Others(old(pt), pid)
      ensures frames == old(frames) && Hand() == old(Hand()) && refusals == old(refusals)
      ensures tables == OtherTables(old(tables), pid)
      ensures lost == old(lost) <==> forall k :: k in old(pt) && k.pid == pid ==> k.vpn * PGSIZE < sz
      ensures lost.Keys == old(lost).Keys && forall f :: f in lost ==> lost[f] >= old(lost)[f]
      ensures Total(free) >= Total(old(free)) + |old(tables)| - |tables| && |tables| <= |old(tables)|
    {
      hide Good, View, Total, Rooted, Spare, RoundUp;
      SameKeys(State());
      forall k | k in pt
        ensures k.vpn < RoundUp(sz) <==> k.vpn * PGSIZE < sz
      {
        RoundUpPages(sz, k.vpn);
      }
      Uvmunmap(cpu, pid, 0, RoundUp(sz));
      Discards(pid);
      Freewalk(cpu, pid);
    }

    /** The part of copyout that falls on one page. */
    method CopyoutPage(cpu: nat, k: Key, off: nat, data: seq<Byte>) returns (ok: bool)
      requires Valid() && cpu < NCPU && off + |data| <= PGSIZE
      modifies this
      ensures Valid() && frames == old(frames) && lost == old(lost) && kernel == old(kernel) && SameAccess(old(pt), pt)
      ensures tables == old(tables)
      ensures ok ==> k in old(pt) && old(pt)[k].u
      ensures ok ==> |old(Sees())[k]| == PGSIZE && Sees() == old(Sees())[k := Patched(old(Sees())[k], off, data)]
      ensures !ok ==> Sees() == old(Sees())
      ensures refusals >= old(refusals) && (ok ==> refusals == old(refusals))
      ensures !ok ==> refusals > old(refusals) || k !in old(pt) || !old(pt)[k].u
      ensures Spent(old(free), free, 1) && (refusals != old(refusals) ==> Total(old(free)) == 0)
    {
      hide Good, View, Total, Rooted;
      if k !in pt {
        return false;
      }
      MarkedIfNotWritable(State(), k);
      if pt[k].f {
        var r := Cowalloc(cpu, k);
        if r == None {
          return false;
        }
      } else if !pt[k].u {
        return false;
      }
      ghost var s := State();
      Reachable(s, k);
      var f := pt[k].frame;
      var page := Patched(mem[f], off, data);
      StorePrivate(s, k, page);
      mem := mem[f := page];
      assert State() == s.(mem := s.mem[f := page]);
      return true;
    }

    /** Copies bytes to user memory, page by page; a failure may leave a first part written. */
    method Copyout(cpu: nat, pid: nat, dst: nat, src: seq<Byte>) returns (ok: bool, done: nat)
      requires Valid() && cpu < NCPU
      modifies this
      ensures Valid() && frames == old(frames) && lost == old(lost) && kernel == old(kernel) && tables == old(tables)
      ensures done <= |src| && (ok <==> done == |src|)
      ensures Sees() == Written(old(Sees()), pid, dst, src[..done])
      ensures forall a :: dst <= a < dst + done ==> UserPage(old(pt), pid, a)
      ensures SameAccess(old(pt), pt) && refusals >= old(refusals)
      ensures ok ==> refusals == old(refusals)
      ensures !ok ==> refusals > old(refusals) || !UserPage(old(pt), pid, dst + done)
      ensures refusals != old(refusals) ==> Total(old(free)) < PagesOf(dst, |src|)
      ensures Spent(old(free), free, PagesOf(dst, |src|))
    {
      hide Good, View, Written, SameAccess, Total, Rooted, PagesOf;
      NoPages(dst);
      done := 0;
      PageSizes(State());
      WrittenNone(Sees(), pid, dst);
      AccessSame(pt);
      assert src[..0] == [];
      while done < |src|
        invariant 0 <= done <= |src|
        invariant Valid() && frames == old(frames) && lost == old(lost) && kernel == old(kernel)
        invariant tables == old(tables)
        invariant Sees() == Written(old(Sees()), pid, dst, src[..done])
        invariant SameAccess(old(pt), pt) && refusals == old(refusals)
        invariant forall a :: dst <= a < dst + done ==> UserPage(old(pt), pid, a)
        invariant Spent(old(free), free, PagesOf(dst, done)) && PagesOf(dst, done) <= PagesOf(dst, |src|)
        invariant done == 0 || done == |src| || (dst + done) % PGSIZE == 0
      {
        var va := dst + done;
        var off := va % PGSIZE;
        var n := if PGSIZE - off > |src| - done then |src| - done else PGSIZE - off;
        AccessKept(old(pt), pt, pid, va);
        OnePageMore(dst, done, n);
        MorePages(dst, done + n, |src|);
        ghost var before := pt;
        ok := CopyoutPage(cpu, Key(pid, va / PGSIZE), off, src[done..done + n]);
        AccessTwice(old(pt), before, pt);
        if !ok {
          return;
        }
        WriteChunk(old(Sees()), pid, dst, src, done, n);
        SamePage(old(pt), pid, va, n);
        done := done + n;
      }
      return true, done;
    }

    /** Copies bytes from user memory: all of them if every page is the user's, else it fails. */
    method Copyin(pid: nat, src: nat, len: nat) returns (r: Option<seq<Byte>>)
      requires Valid()
      ensures r.Some? <==> forall a :: src <= a < src + len ==> UserPage(pt, pid, a)
      ensures r.Some? ==> |r.value| == len && HasBytes(Sees(), pid, src, r.value)
    {
      hide Good, View, HasByte, UserPage, Rooted;
      var data: seq<Byte> := [];
      while |data| < len
        invariant |data| <= len
        invariant forall a :: src <= a < src + |data| ==> UserPage(pt, pid, a)
        invariant HasBytes(Sees(), pid, src, data)
      {
        var va := src + |data|;
        var off := va % PGSIZE;
        if !UserPage(pt, pid, va) {
          return None;
        }
        var k := UserKey(pt, pid, va);
        Reachable(State(), k);
        var n := if PGSIZE - off > len - |data| then len - |data| else PGSIZE - off;
        SamePage(pt, pid, va, n);
        var part := mem[pt[k].frame][off..off + n];
        ReadChunk(Sees(), pid, va, part);
        ReadOn(Sees(), pid, src, data, part);
        data := data + part;
      }
      return Some(data);
    }
  }
}
