/**
 File contents over the block tree: balloc, bfree, bmap, readi, writei, itrunc.

 The blocks are those of the logical disk a transaction sees (what bread returns
 and log_write records). Running out of blocks is a panic, reported as None or
 false. Copies to and from the caller succeed.
 */
module Files {
  import opened ByteBlocks
  import opened Common
  import opened FileTree
  import opened FileWrites

  const BITS_PER_BLOCK := 8192
  const NO_ADDRS: seq<nat> := seq(NDIRECT + 2, _ => 0)

  /** A state of the file system, for specifications. */
  datatype Snap = Snap(store: Store, bitmap: seq<bool>, inodes: seq<Inode>, owner: map<nat, Place>, dataStart: nat)

  ghost predicate Good(f: Snap) {
    Tree(f.store, f.bitmap, f.inodes, f.owner, f.dataStart)
  }

  /** The block slot `s` of inode `ino` names. */
  function BlockOf(f: Snap, ino: nat, s: Slot): nat
    requires ino < |f.inodes| && |f.inodes[ino].addrs| == NDIRECT + 2 && IsSlot(s)
  {
    Named(f.store, f.inodes, ino, s)
  }

  /** From `a` to `b` only inode `ino` gained blocks, and every data block of another inode is as it was. */
  ghost predicate Keeps(a: Snap, b: Snap, ino: nat) {
    && |b.inodes| == |a.inodes| && |b.store| == |a.store| && b.dataStart == a.dataStart
    && (forall i :: 0 <= i < |a.inodes| ==> b.inodes[i].size == a.inodes[i].size)
    && (forall x :: x in a.owner ==> x in b.owner && b.owner[x] == a.owner[x])
    && (forall x :: x in b.owner && x !in a.owner ==> b.owner[x].ino == ino)
    && (forall x :: x in a.owner && a.owner[x].ino != ino && IsData(a.owner[x].s) && x < |a.store| == |b.store| ==>
         b.store[x] == a.store[x])
  }

  /** ... and the data blocks of `ino` are as they were too. */
  ghost predicate Extends(a: Snap, b: Snap, ino: nat) {
    && Keeps(a, b, ino)
    && (forall x :: x in a.owner && IsData(a.owner[x].s) && x < |a.store| == |b.store| ==> b.store[x] == a.store[x])
  }

  lemma ExtendsTransitive(a: Snap, b: Snap, c: Snap, ino: nat)
    requires Extends(a, b, ino) && Extends(b, c, ino)
    ensures Extends(a, c, ino)
  {}

  /** A slot that named a block still names it; a slot of another inode names what it named. */
  lemma StableSlot(a: Snap, b: Snap, ino: nat, i: nat, s: Slot)
    requires Good(a) && Good(b) && Keeps(a, b, ino) && i < |a.inodes| && IsSlot(s)
    ensures BlockOf(a, i, s) != 0 || i != ino ==> BlockOf(b, i, s) == BlockOf(a, i, s)
  {
    var x, y := BlockOf(a, i, s), BlockOf(b, i, s);
  }

  /** Giving the free block `v` to a vacant slot of `ino` keeps the tree and extends the state. */
  lemma GrowSlot(a: Snap, store: Store, ino: nat, s: Slot, v: nat, b: Snap)
    requires Good(a) && v < |a.store| && !a.bitmap[v] && store == a.store[v := ZERO_BYTES]
    requires Vacant(store, a.inodes, ino, s)
    requires v < UINT_LIMIT
    requires b == Snap(SetStore(store, a.inodes, ino, s, v), a.bitmap[v := true], SetInodes(a.inodes, ino, s, v),
                       a.owner[v := Place(ino, s)], a.dataStart)
    ensures v != 0
    ensures Good(b) && BlockOf(b, ino, s) == v && Extends(a, b, ino)
  {
    hide Named, Owned, Exact;
    ZeroKeepsTree(a.store, a.bitmap, a.inodes, a.owner, a.dataStart, v);
    AllocKeepsTree(store, a.bitmap, a.inodes, a.owner, a.dataStart, ino, s, v);
    SetNamed(store, a.inodes, a.owner, ino, s, v, ino, s);
    if HasParent(s) {
      OwnerOf(store, a.inodes, a.owner, ino, Parent(s));
    }
  }

  lemma StillVacant(a: Snap, ino: nat, s: Slot, v: nat)
    requires Good(a) && Vacant(a.store, a.inodes, ino, s) && v < |a.store| && !a.bitmap[v]
    ensures Vacant(a.store[v := ZERO_BYTES], a.inodes, ino, s)
  {
    hide Named, Owned, Exact;
    ZeroKeepsTree(a.store, a.bitmap, a.inodes, a.owner, a.dataStart, v);
  }

  /** The writes that give block `v` to slot `s` stay within `slots`. */
  lemma SlotWrites(a: Snap, st: Store, ino: nat, s: Slot, v: nat, slots: set<Slot>, ws: seq<Write>, ws': seq<Write>)
    requires Good(a) && v < |a.store| && !a.bitmap[v] && st == a.store[v := ZERO_BYTES] && Vacant(st, a.inodes, ino, s)
    requires Confined(ws, a.owner, ino, slots, |a.bitmap|) && s in slots && (HasParent(s) ==> Parent(s) in slots)
    requires var alloc := ws + [SetBit(v, true), Fill(v, ZERO_BYTES)];
             if HasParent(s) then
               exists data :: ws' == alloc + [Fill(Named(st, a.inodes, ino, Parent(s)), data)]
             else ws' == alloc
    ensures Confined(ws', a.owner[v := Place(ino, s)], ino, slots, |a.bitmap|)
  {
    hide Named, Owned, Exact;
    ZeroKeepsTree(a.store, a.bitmap, a.inodes, a.owner, a.dataStart, v);
    if HasParent(s) {
      OwnerOf(st, a.inodes, a.owner, ino, Parent(s));
    }
    assert ws' == ws + ws'[|ws|..];
    ConfinedGrow(ws, a.owner, ino, s, v, slots, |a.bitmap|, ws'[|ws|..]);
  }

  lemma TreeSizes(a: Snap)
    requires Good(a)
    ensures |a.bitmap| == |a.store| <= UINT_LIMIT
  {}

  /** A slot whose index block is there is vacant if it names none. */
  lemma ParentInRange(a: Snap, ino: nat, s: Slot)
    requires Good(a) && ino < |a.inodes| && IsSlot(s) && Shaped(a.inodes) && Named(a.store, a.inodes, ino, s) == 0
    requires HasParent(s) ==> Named(a.store, a.inodes, ino, Parent(s)) != 0
    ensures Vacant(a.store, a.inodes, ino, s)
  {
    hide Named;
    if HasParent(s) {
      OwnerOf(a.store, a.inodes, a.owner, ino, Parent(s));
    }
  }

  lemma DataOwned(d: Snap, ino: nat, bn: nat, slots: set<Slot>)
    requires Good(d) && ino < |d.inodes| && bn < MAXFILE && BlockOf(d, ino, SlotOf(bn)) != 0 && Path(bn) <= slots
    ensures var b := BlockOf(d, ino, SlotOf(bn));
            b in d.owner && d.owner[b].ino == ino && d.owner[b].s in slots
  {
    OwnerOf(d.store, d.inodes, d.owner, ino, SlotOf(bn));
  }

  lemma OwnerOf(store: Store, inodes: seq<Inode>, owner: map<nat, Place>, ino: nat, s: Slot)
    requires Shaped(inodes) && Owned(store, inodes, owner) && ino < |inodes| && IsSlot(s)
    requires Named(store, inodes, ino, s) != 0
    ensures Named(store, inodes, ino, s) in owner && owner[Named(store, inodes, ino, s)] == Place(ino, s)
  {}

  lemma KeepsTransitive(a: Snap, b: Snap, c: Snap, ino: nat)
    requires Keeps(a, b, ino) && Keeps(b, c, ino)
    ensures Keeps(a, c, ino)
  {}

  // ---- Bytes of files ----

  const MAXBYTES := 67382272  // MAXFILE * BSIZE

  /** Byte `k` of a file has a block. */
  predicate Mapped(f: Snap, ino: nat, k: nat)
    requires ino < |f.inodes| && |f.inodes[ino].addrs| == NDIRECT + 2 && k < MAXBYTES
  {
    BlockOf(f, ino, SlotOf(k / BSIZE)) != 0
  }

  function ByteIn(store: Store, b: nat, o: nat): Byte
    requires o < BSIZE
  {
    if 0 < b < |store| then store[b][o] else 0
  }

  function ByteAt(f: Snap, ino: nat, k: nat): Byte
    requires ino < |f.inodes| && |f.inodes[ino].addrs| == NDIRECT + 2 && k < MAXBYTES
  {
    ByteIn(f.store, BlockOf(f, ino, SlotOf(k / BSIZE)), k % BSIZE)
  }

  /** What a file holds. */
  ghost function Content(f: Snap, ino: nat): (c: seq<Byte>)
    requires Shaped(f.inodes) && ino < |f.inodes| && f.inodes[ino].size <= MAXBYTES
    ensures |c| == f.inodes[ino].size
  {
    seq(f.inodes[ino].size, k requires 0 <= k < f.inodes[ino].size => ByteAt(f, ino, k))
  }

  /** Files have no holes: every byte below the size has a block. */
  ghost predicate NoHoles(f: Snap)
    requires Shaped(f.inodes)
  {
    forall ino :: 0 <= ino < |f.inodes| ==>
      && f.inodes[ino].size <= MAXBYTES
      && forall k {:trigger Mapped(f, ino, k)} :: 0 <= k < f.inodes[ino].size ==> Mapped(f, ino, k)
  }

  ghost predicate Valid(f: Snap) {
    Good(f) && NoHoles(f)
  }

  /** A byte that has a block keeps both when blocks are allocated. */
  lemma ExtendsKeepsByte(a: Snap, b: Snap, ino: nat, i: nat, k: nat)
    requires Good(a) && Good(b) && Extends(a, b, ino) && i < |a.inodes| && k < MAXBYTES && Mapped(a, i, k)
    ensures Mapped(b, i, k) && ByteAt(b, i, k) == ByteAt(a, i, k)
  {
    hide Named;
    var s := SlotOf(k / BSIZE);
    StableSlot(a, b, ino, i, s);
    OwnerOf(a.store, a.inodes, a.owner, i, s);
  }

  /** Another file's bytes are untouched. */
  lemma KeepsOtherByte(a: Snap, b: Snap, ino: nat, i: nat, k: nat)
    requires Good(a) && Good(b) && Keeps(a, b, ino) && i < |a.inodes| && i != ino && k < MAXBYTES
    ensures Mapped(b, i, k) <==> Mapped(a, i, k)
    ensures ByteAt(b, i, k) == ByteAt(a, i, k)
  {
    hide Named;
    var s := SlotOf(k / BSIZE);
    StableSlot(a, b, ino, i, s);
    if Mapped(a, i, k) {
      OwnerOf(a.store, a.inodes, a.owner, i, s);
    }
  }

  /** memmove into a block. */
  function Patch(b: ByteBlock, o: nat, bytes: seq<Byte>): ByteBlock
    requires o + |bytes| <= BSIZE
  {
    b[..o] + bytes + b[o + |bytes|..]
  }

  lemma PatchAt(b: ByteBlock, o: nat, bytes: seq<Byte>, k: nat)
    requires o + |bytes| <= BSIZE && k < BSIZE
    ensures Patch(b, o, bytes)[k] == if o <= k < o + |bytes| then bytes[k - o] else b[k]
  {}

  /** Writing part of a data block changes those bytes of that file and nothing else. */
  lemma WriteChunk(d: Snap, e: Snap, ino: nat, bn: nat, o: nat, bytes: seq<Byte>)
    requires Good(d) && ino < |d.inodes| && bn < MAXFILE && o + |bytes| <= BSIZE
    requires 0 < BlockOf(d, ino, SlotOf(bn)) < |d.store|
    requires var x := BlockOf(d, ino, SlotOf(bn));
             e == d.(store := d.store[x := Patch(d.store[x], o, bytes)])
    ensures Good(e) && Keeps(d, e, ino)
    ensures forall k: nat {:trigger ByteAt(e, ino, k)} :: k < MAXBYTES ==>
      && (Mapped(e, ino, k) <==> Mapped(d, ino, k))
      && ByteAt(e, ino, k) == if k / BSIZE == bn && o <= k % BSIZE < o + |bytes| then bytes[k % BSIZE - o]
           else ByteAt(d, ino, k)
  {
    hide Named, Patch, SlotOf;
    var x := BlockOf(d, ino, SlotOf(bn));
    OwnerOf(d.store, d.inodes, d.owner, ino, SlotOf(bn));
    forall i, s | 0 <= i < |d.inodes| && IsSlot(s)
      ensures Named(e.store, e.inodes, i, s) == Named(d.store, d.inodes, i, s)
    {
      DataWriteKeeps(d.store, e.store, d.inodes, d.owner, x, i, s);
    }
    forall k: nat | k < MAXBYTES
      ensures Mapped(e, ino, k) <==> Mapped(d, ino, k)
      ensures ByteAt(e, ino, k) == if k / BSIZE == bn && o <= k % BSIZE < o + |bytes| then bytes[k % BSIZE - o]
        else ByteAt(d, ino, k)
    {
      PatchAt(d.store[x], o, bytes, k % BSIZE);
      if BlockOf(d, ino, SlotOf(k / BSIZE)) == x {
        DistinctBlocks(d.store, d.inodes, d.owner, ino, SlotOf(k / BSIZE), ino, SlotOf(bn));
        SlotOfInjective(k / BSIZE, bn);
      }
    }
  }

  /** From `a` to `c`, bytes lo .. hi - 1 of file `ino` became those of `src`; no other byte of any file changed. */
  ghost predicate Wrote(a: Snap, c: Snap, ino: nat, lo: nat, hi: nat, src: seq<Byte>) {
    && Good(a) && Good(c) && Keeps(a, c, ino) && ino < |a.inodes| == |c.inodes|
    && lo <= hi <= lo + |src| && hi <= MAXBYTES
    && forall k: nat {:trigger ByteAt(c, ino, k)} :: k < MAXBYTES && (Mapped(a, ino, k) || lo <= k < hi) ==>
         && Mapped(c, ino, k)
         && ByteAt(c, ino, k) == if lo <= k < hi then src[k - lo] else ByteAt(a, ino, k)
  }

  lemma KeepsItself(a: Snap, ino: nat)
    ensures Keeps(a, a, ino) && Extends(a, a, ino)
  {}

  /** One round of writei: allocate, then copy up to the end of the block. */
  lemma WroteChunk(a: Snap, c: Snap, d: Snap, e: Snap, ino: nat, lo: nat, off: nat, src: seq<Byte>, m: nat)
    requires Wrote(a, c, ino, lo, off, src) && Good(d) && Extends(c, d, ino)
    requires 1 <= m <= BSIZE - off % BSIZE && off + m <= lo + |src| && off + m <= MAXBYTES
    requires 0 < BlockOf(d, ino, SlotOf(off / BSIZE)) < |d.store|
    requires e == d.(store := d.store[BlockOf(d, ino, SlotOf(off / BSIZE)) :=
                       Patch(d.store[BlockOf(d, ino, SlotOf(off / BSIZE))], off % BSIZE, src[off - lo..off - lo + m])])
    ensures Wrote(a, e, ino, lo, off + m, src)
  {
    hide Named, Patch, SlotOf, Tree, Keeps, Extends;
    var bytes := src[off - lo..off - lo + m];
    ShapedGood(a);
    ShapedGood(c);
    ExtendsKeeps(c, d, ino);
    WriteChunk(d, e, ino, off / BSIZE, off % BSIZE, bytes);
    KeepsTransitive(a, c, d, ino);
    KeepsTransitive(a, d, e, ino);
    forall k: nat | k < MAXBYTES && (Mapped(a, ino, k) || lo <= k < off + m)
      ensures Mapped(e, ino, k) && ByteAt(e, ino, k) == if lo <= k < off + m then src[k - lo] else ByteAt(a, ino, k)
    {
      ChunkByte(off, m, k);
      if Mapped(a, ino, k) || lo <= k < off {
        assert ByteAt(c, ino, k) == if lo <= k < off then src[k - lo] else ByteAt(a, ino, k);
        ExtendsKeepsByte(c, d, ino, ino, k);
      } else {
        assert Mapped(d, ino, k);
      }
      assert ByteAt(e, ino, k) == if off <= k < off + m then src[k - lo] else ByteAt(d, ino, k);
    }
  }

  lemma ExtendsKeeps(a: Snap, b: Snap, ino: nat)
    requires Extends(a, b, ino) && Good(a) && Good(b)
    ensures Keeps(a, b, ino) && Shaped(b.inodes) && |b.inodes| == |a.inodes|
  {}

  /**
   Byte `k` is in the chunk of `m` bytes at `off`, which ends by the block's end, if and only
   if its block and offset are.
   */
  lemma ChunkByte(off: nat, m: nat, k: nat)
    requires 1 <= m <= BSIZE - off % BSIZE
    ensures off <= k < off + m <==> k / BSIZE == off / BSIZE && off % BSIZE <= k % BSIZE < off % BSIZE + m
    ensures off <= k < off + m ==> k % BSIZE - off % BSIZE == k - off
  {}

  lemma ShapedGood(a: Snap)
    requires Good(a)
    ensures Shaped(a.inodes)
  {}

  /** The inodes once the first `k` addresses of `ino` are cleared. */
  function Cleared(inodes: seq<Inode>, ino: nat, k: nat): seq<Inode>
    requires Shaped(inodes) && ino < |inodes| && k <= NDIRECT + 2
  {
    inodes[ino := inodes[ino].(addrs := seq(NDIRECT + 2, j requires 0 <= j < NDIRECT + 2 => if j < k then 0
      else inodes[ino].addrs[j]))]
  }

  lemma StartTruncate(a: Snap, ino: nat)
    requires Shaped(a.inodes) && ino < |a.inodes|
    ensures Truncating(a, a.bitmap, ino, 0) && Cleared(a.inodes, ino, 0) == a.inodes
  {
    assert Cleared(a.inodes, ino, 0)[ino].addrs == a.inodes[ino].addrs;
  }

  /** Passing slots that name nothing frees nothing. */
  lemma SkipEmpty(a: Snap, bitmap: seq<bool>, ino: nat, p: nat, q: nat)
    requires Good(a) && ino < |a.inodes| && p <= q && Truncating(a, bitmap, ino, p)
    requires forall s {:trigger Position(s)} :: IsSlot(s) && p <= Position(s) < q ==> BlockOf(a, ino, s) == 0
    ensures Truncating(a, bitmap, ino, q)
  {
    hide Named, Position;
  }

  lemma SkipAbsent(a: Snap, bitmap: seq<bool>, ino: nat, p: Slot)
    requires Good(a) && ino < |a.inodes| && (p == Single || p.DoubleEntry?) && IsSlot(p) && BlockOf(a, ino, p) == 0
    requires Truncating(a, bitmap, ino, FirstBelow(p))
    ensures Truncating(a, bitmap, ino, Position(p) + 1)
  {
    hide Tree, Truncating;
    ShapedGood(a);
    forall s {:trigger Position(s)} | IsSlot(s) && FirstBelow(p) <= Position(s) < Position(p) + 1
      ensures BlockOf(a, ino, s) == 0
    {
      assert s == p || (HasParent(s) && Parent(s) == p);
    }
    SkipEmpty(a, bitmap, ino, FirstBelow(p), Position(p) + 1);
  }

  lemma SkipDouble(a: Snap, bitmap: seq<bool>, ino: nat)
    requires Good(a) && ino < |a.inodes| && BlockOf(a, ino, Double) == 0
    requires Truncating(a, bitmap, ino, Position(Single) + 1)
    ensures Truncating(a, bitmap, ino, Position(Double) + 1)
  {
    hide Tree, Truncating;
    ShapedGood(a);
    forall s {:trigger Position(s)} | IsSlot(s) && Position(Single) + 1 <= Position(s) < Position(Double) + 1
      ensures BlockOf(a, ino, s) == 0
    {
      assert s == Double || s.DoubleEntry? || s.Leaf?;
    }
    SkipEmpty(a, bitmap, ino, Position(Single) + 1, Position(Double) + 1);
  }

  /** With every slot passed and the inode cleared, the other files are as they were. */
  lemma FinishTruncate(a: Snap, e: Snap, ino: nat)
    requires Valid(a) && ino < |a.inodes| && e.store == a.store && e.dataStart == a.dataStart
    requires Truncating(a, e.bitmap, ino, Position(Double) + 1)
    requires e.inodes == a.inodes[ino := Inode(0, NO_ADDRS)]
    requires e.owner == map b | b in a.owner && a.owner[b].ino != ino :: a.owner[b]
    ensures Valid(e) && Content(e, ino) == []
    ensures |e.bitmap| == |a.bitmap| && forall b :: 0 <= b < |e.bitmap| ==>
      (e.bitmap[b] <==> a.bitmap[b] && !(b in a.owner && a.owner[b].ino == ino))
    ensures forall i :: 0 <= i < |a.inodes| && i != ino ==> Content(e, i) == Content(a, i)
  {
    hide At, Named, Position;
    LastPosition(a);
    assert Shaped(e.inodes);
    forall i, s | 0 <= i < |a.inodes| && IsSlot(s)
      ensures Named(e.store, e.inodes, i, s) == if i == ino then 0 else Named(a.store, a.inodes, i, s)
    {
      TruncatedNames(a, e, ino, i, s);
    }
    assert Owned(e.store, e.inodes, e.owner);
    forall b | b in e.owner
      ensures Named(e.store, e.inodes, e.owner[b].ino, e.owner[b].s) == b
    {
      assert Named(a.store, a.inodes, a.owner[b].ino, a.owner[b].s) == b;
    }
    assert Good(e);
    forall i, k: nat | 0 <= i < |a.inodes| && i != ino && k < a.inodes[i].size
      ensures Mapped(e, i, k) && ByteAt(e, i, k) == ByteAt(a, i, k)
    {
      assert Mapped(a, i, k);
    }
  }

  lemma TruncatedNames(a: Snap, e: Snap, ino: nat, i: nat, s: Slot)
    requires Shaped(a.inodes) && ino < |a.inodes| && i < |a.inodes| && IsSlot(s) && e.store == a.store
    requires e.inodes == a.inodes[ino := Inode(0, NO_ADDRS)]
    ensures Named(e.store, e.inodes, i, s) == if i == ino then 0 else Named(a.store, a.inodes, i, s)
  {
    hide At;
    if i == ino {
      NothingNamed(e.store, e.inodes[ino].addrs, s);
    }
  }

  lemma LastPosition(a: Snap)
    requires Good(a)
    ensures forall b :: b in a.owner ==> Position(a.owner[b].s) < Position(Double) + 1
  {}

  lemma NothingNamed(store: Store, addrs: seq<nat>, s: Slot)
    requires addrs == NO_ADDRS && IsSlot(s)
    ensures At(store, addrs, s) == 0
  {}

  // ---- The order in which itrunc frees ----

  /** itrunc visits the slots of an inode in this order. */
  function Position(s: Slot): nat {
    match s
    case Direct(i) => i
    case SingleEntry(j) => NDIRECT + j
    case Single => NDIRECT + NINDIRECT
    case Leaf(i, j) => NDIRECT + NINDIRECT + 1 + (NINDIRECT + 1) * i + j
    case DoubleEntry(i) => NDIRECT + NINDIRECT + 1 + (NINDIRECT + 1) * i + NINDIRECT
    case Double => NDIRECT + NINDIRECT + 1 + (NINDIRECT + 1) * NINDIRECT
  }

  /** The double-indirect slots follow the single-indirect ones without a gap, one index block after another. */
  lemma Consecutive(i: nat)
    ensures FirstBelow(Single) == NDIRECT
    ensures FirstBelow(DoubleEntry(0)) == Position(Single) + 1
    ensures Position(DoubleEntry(i)) + 1 == FirstBelow(DoubleEntry(i + 1))
    ensures FirstBelow(DoubleEntry(NINDIRECT)) == Position(Double)
  {}

  lemma DirectFirst(i: nat)
    ensures Position(Direct(i)) == i
  {}

  lemma PositionInjective(s: Slot, t: Slot)
    requires IsSlot(s) && IsSlot(t) && Position(s) == Position(t)
    ensures s == t
  {}

  /** The data slot at entry `j` of the index block in slot `p`. */
  function Below(p: Slot, j: nat): Slot
    requires p == Single || p.DoubleEntry?
  {
    if p == Single then SingleEntry(j) else Leaf(p.i, j)
  }

  function FirstBelow(p: Slot): nat
    requires p == Single || p.DoubleEntry?
  {
    Position(Below(p, 0))
  }

  /** The bitmap once itrunc has passed every slot of `ino` before position `pos`. */
  ghost predicate Truncating(a: Snap, bitmap: seq<bool>, ino: nat, pos: nat) {
    && |bitmap| == |a.bitmap|
    && forall b :: 0 <= b < |bitmap| ==>
         (bitmap[b] <==> a.bitmap[b] && !(b in a.owner && a.owner[b].ino == ino && Position(a.owner[b].s) < pos))
  }

  /** The block at the next position is still marked, and freeing it moves on by one. */
  lemma FreeStep(a: Snap, bitmap: seq<bool>, ino: nat, s: Slot)
    requires Good(a) && ino < |a.inodes| && IsSlot(s) && Truncating(a, bitmap, ino, Position(s))
    ensures var x := BlockOf(a, ino, s);
            && (x == 0 ==> Truncating(a, bitmap, ino, Position(s) + 1))
            && (x != 0 ==> x < |bitmap| && bitmap[x] && Truncating(a, bitmap[x := false], ino, Position(s) + 1))
  {
    hide Named, Position;
    var x := BlockOf(a, ino, s);
    forall b | b in a.owner && a.owner[b].ino == ino && Position(a.owner[b].s) == Position(s)
      ensures b == x
    {
      PositionInjective(a.owner[b].s, s);
    }
    if x != 0 {
      OwnerOf(a.store, a.inodes, a.owner, ino, s);
    }
  }

  lemma MappedBelow(a: Snap, ino: nat, k: nat)
    requires Valid(a) && ino < |a.inodes|
    ensures a.inodes[ino].size <= MAXBYTES
    ensures k < a.inodes[ino].size ==> Mapped(a, ino, k)
  {}

  lemma JoinSlices(c: seq<Byte>, lo: nat, mid: nat, hi: nat)
    requires lo <= mid <= hi <= |c|
    ensures c[lo..mid] + c[mid..hi] == c[lo..hi]
  {}

  /** The part of a block that readi copies is the file's bytes there. */
  lemma ReadChunk(a: Snap, ino: nat, off: nat, m: nat)
    requires Valid(a) && ino < |a.inodes| && 1 <= m <= BSIZE - off % BSIZE && off + m <= a.inodes[ino].size
    requires 0 < BlockOf(a, ino, SlotOf(off / BSIZE)) < |a.store|
    ensures a.store[BlockOf(a, ino, SlotOf(off / BSIZE))][off % BSIZE..off % BSIZE + m] == Content(a, ino)[off..off + m]
  {
    hide Tree, Named;
    ShapedGood(a);
    var o, x := off % BSIZE, a.store[BlockOf(a, ino, SlotOf(off / BSIZE))];
    var read, held := x[o..o + m], Content(a, ino)[off..off + m];
    forall k | 0 <= k < m
      ensures read[k] == held[k]
    {
      ChunkByte(off, m, off + k);
      assert Content(a, ino)[off + k] == ByteAt(a, ino, off + k);
    }
  }

  /** writei accepts a write of `n` bytes at `off` to a file of `size` bytes. */
  predicate CanWrite(size: nat, off: nat, n: nat) {
    off <= size && off + n < UINT_LIMIT && off + n <= MAXBYTES
  }

  /** `c` with the bytes from `off` on replaced by `src`, growing if need be. */
  function Overwrite(c: seq<Byte>, off: nat, src: seq<Byte>): seq<Byte>
    requires off <= |c|
  {
    c[..off] + src + if off + |src| < |c| then c[off + |src|..] else []
  }

  lemma StartWrite(a: Snap, ino: nat, off: nat, src: seq<Byte>)
    requires Good(a) && ino < |a.inodes| && off <= MAXBYTES
    ensures Wrote(a, a, ino, off, off, src)
  {
    hide Tree;
    KeepsItself(a, ino);
  }

  lemma WroteGood(a: Snap, c: Snap, ino: nat, lo: nat, hi: nat, src: seq<Byte>)
    requires Wrote(a, c, ino, lo, hi, src)
    ensures Good(c) && Shaped(c.inodes) && ino < |c.inodes| == |a.inodes| && |c.store| == |a.store|
    ensures forall i :: 0 <= i < |a.inodes| ==> c.inodes[i].size == a.inodes[i].size
  {}

  lemma BlockInRange(d: Snap, ino: nat, s: Slot)
    requires Good(d) && ino < |d.inodes| && IsSlot(s) && BlockOf(d, ino, s) != 0
    ensures 0 < BlockOf(d, ino, s) < |d.store|
  {
    OwnerOf(d.store, d.inodes, d.owner, ino, s);
  }

  /** Only sizes differ. */
  ghost predicate SameAddrs(c: Snap, e: Snap) {
    && e == c.(inodes := e.inodes) && |e.inodes| == |c.inodes|
    && forall i :: 0 <= i < |c.inodes| ==> e.inodes[i].addrs == c.inodes[i].addrs
  }

  lemma SizeKeepsGood(c: Snap, e: Snap)
    requires Good(c) && SameAddrs(c, e)
    ensures Good(e)
    ensures forall i, k: nat {:trigger ByteAt(e, i, k)} {:trigger Mapped(e, i, k)} ::
      0 <= i < |c.inodes| && k < MAXBYTES ==>
      (Mapped(e, i, k) <==> Mapped(c, i, k)) && ByteAt(e, i, k) == ByteAt(c, i, k)
  {
    hide At;
    assert Shaped(e.inodes);
    forall i, s | 0 <= i < |c.inodes| && IsSlot(s)
      ensures Named(e.store, e.inodes, i, s) == Named(c.store, c.inodes, i, s)
    {
    }
  }

  /** With all bytes written and the size updated, the file holds the overwritten contents and no other file changed. */
  lemma FinishWrite(a: Snap, c: Snap, e: Snap, ino: nat, off: nat, src: seq<Byte>)
    requires Wrote(a, c, ino, off, off + |src|, src) && NoHoles(a) && off <= a.inodes[ino].size
    requires SameAddrs(c, e) && forall i :: 0 <= i < |c.inodes| && i != ino ==> e.inodes[i].size == c.inodes[i].size
    requires e.inodes[ino].size == if off + |src| > a.inodes[ino].size then off + |src| else a.inodes[ino].size
    ensures Valid(e) && Content(e, ino) == Overwrite(Content(a, ino), off, src)
    ensures forall i :: 0 <= i < |a.inodes| && i != ino ==>
      e.inodes[i].size == a.inodes[i].size && Content(e, i) == Content(a, i)
  {
    hide Tree, Named, Keeps;
    WroteGood(a, c, ino, off, off + |src|, src);
    SizeKeepsGood(c, e);
    ShapedGood(a);
    ShapedGood(e);
    forall k: nat | k < e.inodes[ino].size
      ensures Mapped(e, ino, k) && ByteAt(e, ino, k) == Overwrite(Content(a, ino), off, src)[k]
    {
      assert k < a.inodes[ino].size ==> Mapped(a, ino, k);
      assert ByteAt(c, ino, k) == if off <= k < off + |src| then src[k - off] else ByteAt(a, ino, k);
    }
    forall i, k: nat | 0 <= i < |a.inodes| && i != ino && k < a.inodes[i].size
      ensures Mapped(e, i, k) && ByteAt(e, i, k) == ByteAt(a, i, k)
    {
      assert Mapped(a, i, k);
      KeepsOtherByte(a, c, ino, i, k);
    }
  }

  /** A slot that names a block has its index blocks. */
  lemma ParentsFirst(a: Snap, ino: nat, s: Slot)
    requires Shaped(a.inodes) && ino < |a.inodes| && IsSlot(s) && BlockOf(a, ino, s) != 0
    ensures HasParent(s) ==> BlockOf(a, ino, Parent(s)) != 0
    ensures s.Leaf? ==> BlockOf(a, ino, Double) != 0
  {}

  class FileSystem {
    const dataStart: nat
    var store: Store
    var bitmap: seq<bool>
    var inodes: seq<Inode>
    var writes: seq<Write>  // the log_write calls of the current operation
    ghost var base: Base    // what the blocks held when it began
    ghost var owner: map<nat, Place>

    /** What is written so far makes the blocks the current state, but for the inodes in memory. */
    ghost predicate Traced()
      reads this
    {
      Replay(base, writes) == Base(store, bitmap, base.inodes) && |bitmap| == |base.bitmap|
    }

    /** ... and it went to blocks of the slots `slots` of inode `ino`, and to the bitmap. */
    ghost predicate Traces(ino: nat, slots: set<Slot>)
      reads this
    {
      Traced() && Confined(writes, owner, ino, slots, |base.bitmap|)
    }

    ghost function InBlocks(): Base
      reads this
    {
      Base(store, bitmap, inodes)
    }

    ghost function State(): Snap
      reads this
    {
      Snap(store, bitmap, inodes, owner, dataStart)
    }

    constructor (dataStart: nat, size: nat, ninodes: nat)
      requires 1 <= dataStart <= size <= UINT_LIMIT
      ensures Valid(State()) && this.dataStart == dataStart && |store| == |bitmap| == size && |inodes| == ninodes
      ensures forall i :: 0 <= i < ninodes ==> Content(State(), i) == []
    {
      this.dataStart := dataStart;
      store := seq(size, _ => ZERO_BYTES);
      bitmap := seq(size, b => b < dataStart);
      inodes := seq(ninodes, _ => Inode(0, NO_ADDRS));
      owner := map[];
      writes := [];
      base := Base([], [], []);
    }

    /** The first block whose bit is clear, marked and zeroed. */
    method Balloc() returns (r: Option<nat>)
      requires |bitmap| == |store|
      modifies this`bitmap, this`store, this`writes
      ensures |store| == |old(store)| == |bitmap|
      ensures r.None? ==> bitmap == old(bitmap) && store == old(store) && writes == old(writes) && Clear(bitmap) == 0
      ensures r.None? <==> forall b :: 0 <= b < |old(bitmap)| ==> old(bitmap)[b]
      ensures r.Some? ==> r.value < |old(bitmap)| && !old(bitmap)[r.value] && forall b :: 0 <= b < r.value ==>
        old(bitmap)[b]
      ensures r.Some? ==> bitmap == old(bitmap)[r.value := true] && store == old(store)[r.value := ZERO_BYTES]
      ensures r.Some? ==> writes == old(writes) + [SetBit(r.value, true), Fill(r.value, ZERO_BYTES)]
      ensures r.Some? ==> Clear(bitmap) + 1 == Clear(old(bitmap))
      ensures old(Traced()) ==> Traced()
    {
      hide Clear, Replay;
      var b := 0;
      while b < |bitmap|
        invariant 0 <= b && |bitmap| == |store|
        invariant bitmap == old(bitmap) && store == old(store) && writes == old(writes)
        invariant forall k :: 0 <= k < b && k < |bitmap| ==> bitmap[k]
      {
        var bi := 0;
        while bi < BITS_PER_BLOCK && b + bi < |bitmap|
          invariant 0 <= bi <= BITS_PER_BLOCK
          invariant bitmap == old(bitmap) && store == old(store) && writes == old(writes)
          invariant forall k :: 0 <= k < b + bi && k < |bitmap| ==> bitmap[k]
        {
          if !bitmap[b + bi] {
            ClearSet(bitmap, b + bi);
            ReplayNext(base, writes, SetBit(b + bi, true));
            bitmap := bitmap[b + bi := true];
            writes := writes + [SetBit(b + bi, true)];
            ReplayNext(base, writes, Fill(b + bi, ZERO_BYTES));
            store := store[b + bi := ZERO_BYTES];
            writes := writes + [Fill(b + bi, ZERO_BYTES)];
            return Some(b + bi);
          }
          bi := bi + 1;
        }
        b := b + BITS_PER_BLOCK;
      }
      ClearNone(bitmap);
      return None;
    }

    /** Clear a block's bit; freeing a free block panics. */
    method Bfree(b: nat) returns (ok: bool)
      requires b < |bitmap|
      modifies this`bitmap, this`writes
      ensures ok <==> old(bitmap)[b]
      ensures bitmap == old(bitmap)[b := false]
      ensures writes == if ok then old(writes) + [SetBit(b, false)] else old(writes)
      ensures old(Traced()) ==> Traced()
    {
      hide Replay;
      if !bitmap[b] {
        return false;
      }
      ReplayNext(base, writes, SetBit(b, false));
      bitmap := bitmap[b := false];
      writes := writes + [SetBit(b, false)];
      return true;
    }

    /** Store block number `v` in slot `s` of inode `ino`. */
    method SetSlot(ino: nat, s: Slot, v: nat)
      requires Shaped(inodes) && Vacant(store, inodes, ino, s) && v < UINT_LIMIT
      modifies this`store, this`inodes, this`writes
      ensures store == SetStore(old(store), old(inodes), ino, s, v)
      ensures inodes == SetInodes(old(inodes), ino, s, v)
      ensures HasParent(s) ==>
        var p := old(Named(store, inodes, ino, Parent(s))); p < |store| && writes == old(writes) + [Fill(p, store[p])]
      ensures !HasParent(s) ==> writes == old(writes)
      ensures old(Traced()) ==> Traced()
    {
      hide Replay;
      match s
      case Direct(_) => inodes := inodes[ino := inodes[ino].(addrs := inodes[ino].addrs[AddrIndex(s) := v])];
      case Single => inodes := inodes[ino := inodes[ino].(addrs := inodes[ino].addrs[AddrIndex(s) := v])];
      case Double => inodes := inodes[ino := inodes[ino].(addrs := inodes[ino].addrs[AddrIndex(s) := v])];
      case _ =>
        var p := Named(store, inodes, ino, Parent(s));
        store := store[p := SetWord(store[p], IndexIn(s), v)];
        ReplayNext(base, writes, Fill(p, store[p]));
        writes := writes + [Fill(p, store[p])];
    }

    /** A fresh block for the vacant slot `s`. */
    method FillSlot(ino: nat, s: Slot, ghost slots: set<Slot>) returns (r: Option<nat>)
      requires Good(State()) && Shaped(inodes) && Vacant(store, inodes, ino, s)
      requires s in slots && (HasParent(s) ==> Parent(s) in slots) && Traces(ino, slots)
      modifies this`store, this`bitmap, this`inodes, this`owner, this`writes
      ensures Traces(ino, slots) && SameBut(old(inodes), inodes, ino)
      ensures Clear(bitmap) + 1 >= Clear(old(bitmap)) && (r.None? ==> Clear(old(bitmap)) == 0)
      ensures Good(State()) && |inodes| == |old(inodes)|
      ensures r.None? ==> State() == old(State()) && forall b :: 0 <= b < |bitmap| ==> bitmap[b]
      ensures r.Some? ==> Extends(old(State()), State(), ino) && r.value == BlockOf(State(), ino, s) != 0
    {
      hide Owned, Exact, Marked, Named, SetStore, SetInodes, Extends, Clear, Replay, Confined;
      ghost var a, ws := State(), writes;
      TreeSizes(a);
      r := Balloc();
      if r.None? {
        return;
      }
      hide Tree;
      StillVacant(a, ino, s, r.value);
      SlotInodes(inodes, ino, s, r.value);
      ghost var st := store;
      SetSlot(ino, s, r.value);
      owner := owner[r.value := Place(ino, s)];
      GrowSlot(a, st, ino, s, r.value, State());
      SlotWrites(a, st, ino, s, r.value, slots, ws, writes);
    }

    /** One step of bmap: the block slot `s` names, allocated if there is none. */
    method EnsureSlot(ino: nat, s: Slot, ghost slots: set<Slot>) returns (r: Option<nat>)
      requires Good(State()) && ino < |inodes| && IsSlot(s)
      requires HasParent(s) ==> Named(store, inodes, ino, Parent(s)) != 0
      requires s in slots && (HasParent(s) ==> Parent(s) in slots) && Traces(ino, slots)
      modifies this`store, this`bitmap, this`inodes, this`owner, this`writes
      ensures Traces(ino, slots) && SameBut(old(inodes), inodes, ino)
      ensures Clear(bitmap) + 1 >= Clear(old(bitmap)) && (r.None? ==> Clear(old(bitmap)) == 0)
      ensures Good(State()) && |inodes| == |old(inodes)|
      ensures r.None? ==> State() == old(State()) && forall b :: 0 <= b < |bitmap| ==> bitmap[b]
      ensures r.Some? ==> Extends(old(State()), State(), ino) && r.value == Named(store, inodes, ino, s) != 0
      ensures old(Named(store, inodes, ino, s)) != 0 ==> r.Some? && State() == old(State()) && writes == old(writes)
    {
      hide Named, Clear, Replay, Confined, Extends, Owned, Exact, Marked;
      ShapedGood(State());
      var addr := Named(store, inodes, ino, s);
      if addr != 0 {
        KeepsItself(State(), ino);
        return Some(addr);
      }
      ParentInRange(State(), ino, s);
      r := FillSlot(ino, s, slots);
    }

    /**
     The disk block of the bn-th block of a file, allocated with its index blocks if absent;
     None where bmap or balloc panics.
     */
    method Bmap(ino: nat, bn: nat, ghost slots: set<Slot>) returns (r: Option<nat>)
      requires Good(State()) && ino < |inodes|
      requires bn < MAXFILE ==> Path(bn) <= slots
      requires Traces(ino, slots)
      modifies this`store, this`bitmap, this`inodes, this`owner, this`writes
      ensures Traces(ino, slots) && SameBut(old(inodes), inodes, ino)
      ensures Clear(bitmap) + 3 >= Clear(old(bitmap)) && (bn < MAXFILE && r.None? ==> Clear(old(bitmap)) < 3)
      ensures Good(State()) && |inodes| == |old(inodes)|
      ensures bn >= MAXFILE ==> r.None? && State() == old(State())
      ensures bn < MAXFILE && r.None? ==> forall b :: 0 <= b < |bitmap| ==> bitmap[b]
      ensures bn < MAXFILE && r.Some? ==>
        Extends(old(State()), State(), ino) && r.value == Named(store, inodes, ino, SlotOf(bn)) != 0
      ensures bn < MAXFILE && old(Named(store, inodes, ino, SlotOf(bn))) != 0 ==>
        r.Some? && State() == old(State()) && writes == old(writes)
    {
      hide Tree, Extends, Clear, Replay, Confined, Named;
      if bn >= MAXFILE {
        return None;
      }
      ghost var a := State();
      ShapedGood(a);
      if Named(store, inodes, ino, SlotOf(bn)) != 0 { ParentsFirst(a, ino, SlotOf(bn)); }
      if bn < NDIRECT {
        r := EnsureSlot(ino, Direct(bn), slots);
      } else if bn - NDIRECT < NINDIRECT {
        r := EnsureSlot(ino, Single, slots);
        if r.None? {
          return;
        }
        ghost var b := State();
        r := EnsureSlot(ino, SingleEntry(bn - NDIRECT), slots);
        if r.Some? { ExtendsTransitive(a, b, State(), ino); }
      } else {
        var k := bn - NDIRECT - NINDIRECT;
        var level2, level1 := k / NINDIRECT, k % NINDIRECT;
        r := EnsureSlot(ino, Double, slots);
        if r.None? {
          return;
        }
        ghost var b := State();
        r := EnsureSlot(ino, DoubleEntry(level2), slots);
        if r.None? {
          return;
        }
        ghost var c := State();
        ExtendsTransitive(a, b, c, ino);
        r := EnsureSlot(ino, Leaf(level2, level1), slots);
        if r.Some? { ExtendsTransitive(a, c, State(), ino); }
      }
    }

    /** Copy bytes into block `b`, which serves one of `slots`, and log it. */
    method PutData(b: nat, o: nat, bytes: seq<Byte>, ghost ino: nat, ghost slots: set<Slot>)
      requires b < |store| && o + |bytes| <= BSIZE && Traces(ino, slots)
      requires b in owner && owner[b].ino == ino && owner[b].s in slots
      modifies this`store, this`writes
      ensures store == old(store)[b := Patch(old(store)[b], o, bytes)]
      ensures Traces(ino, slots)
    {
      hide Replay, Confined, Patch;
      store := store[b := Patch(store[b], o, bytes)];
      ReplayNext(base, writes, Fill(b, store[b]));
      ConfinedNext(writes, owner, ino, slots, |base.bitmap|, Fill(b, store[b]));
      writes := writes + [Fill(b, store[b])];
    }

    /** iupdate: the inode in memory goes to its block, and with it the operation is all in the blocks. */
    method Iupdate(ino: nat)
      requires Traced() && ino < |inodes| && SameBut(base.inodes, inodes, ino)
      modifies this`writes
      ensures writes == old(writes) + [Node(ino, inodes[ino])] && Replay(base, writes) == InBlocks()
    {
      hide Replay;
      ReplayNext(base, writes, Node(ino, inodes[ino]));
      writes := writes + [Node(ino, inodes[ino])];
      assert base.inodes[ino := inodes[ino]] == inodes;
    }

    /** One round of writei: the block at `off`, and as much of the source as falls on it. */
    method WriteRound(ino: nat, off: nat, bytes: seq<Byte>,
                      ghost a: Snap, ghost lo: nat, ghost src: seq<Byte>, ghost slots: set<Slot>)
      returns (ok: bool)
      requires Wrote(a, State(), ino, lo, off, src) && off + |bytes| <= lo + |src| && off + |bytes| <= MAXBYTES
      requires 1 <= |bytes| <= BSIZE - off % BSIZE && bytes == src[off - lo..off - lo + |bytes|]
      requires Path(off / BSIZE) <= slots && Traces(ino, slots)
      modifies this`store, this`bitmap, this`inodes, this`owner, this`writes
      ensures ok ==> Wrote(a, State(), ino, lo, off + |bytes|, src) && Traces(ino, slots)
      ensures ok ==> SameBut(old(inodes), inodes, ino) && Clear(bitmap) + 3 >= Clear(old(bitmap))
      ensures !ok ==> Clear(old(bitmap)) < 3 && forall b :: 0 <= b < |bitmap| ==> bitmap[b]
    {
      hide Tree, Named, Patch, Keeps, Extends, Wrote, Clear, Replay, Confined;
      ghost var c := State();
      WroteGood(a, c, ino, lo, off, src);
      var b := Bmap(ino, off / BSIZE, slots);
      if b.None? {
        return false;
      }
      ghost var d := State();
      BlockInRange(d, ino, SlotOf(off / BSIZE));
      DataOwned(d, ino, off / BSIZE, slots);
      PutData(b.value, off % BSIZE, bytes, ino, slots);
      WroteChunk(a, c, d, State(), ino, lo, off, src, |bytes|);
      return true;
    }

    /** The loop of writei. */
    method WriteLoop(ino: nat, off0: nat, src: seq<Byte>, ghost a: Snap, ghost slots: set<Slot>)
      returns (ok: bool, off: nat)
      requires Good(State()) && a == State() && ino < |inodes| && off0 + |src| <= MAXBYTES
      requires writes == [] && base == InBlocks() && Paths(off0 / BSIZE, BlocksOf(off0, |src|)) <= slots
      modifies this`store, this`bitmap, this`inodes, this`owner, this`writes
      ensures ok ==> off == off0 + |src| && Wrote(a, State(), ino, off0, off, src)
      ensures ok ==> Traces(ino, slots) && SameBut(a.inodes, inodes, ino)
      ensures ok && |src| == 0 ==> inodes == a.inodes && writes == []
      ensures ok ==> Clear(bitmap) + 3 * BlocksOf(off0, |src|) >= Clear(a.bitmap)
      ensures !ok ==> Clear(a.bitmap) < 3 * BlocksOf(off0, |src|) && forall b :: 0 <= b < |bitmap| ==> bitmap[b]
    {
      hide Tree, Named, Wrote, Clear, Replay, Confined, Paths, Path, BlocksOf, SameBut;
      var n := |src|;
      var tot := 0;
      off := off0;
      StartWrite(a, ino, off0, src);
      NothingWritten(base, owner, ino, slots, |base.bitmap|);
      NoBlocks(off0, inodes, ino);
      while tot < n
        invariant 0 <= tot <= n && off == off0 + tot
        invariant Wrote(a, State(), ino, off0, off, src)
        invariant Traces(ino, slots)
        invariant SameBut(a.inodes, inodes, ino) && (tot == 0 ==> inodes == a.inodes && writes == [])
        invariant Clear(bitmap) + 3 * BlocksOf(off0, tot) >= Clear(a.bitmap)
        invariant tot == 0 || tot == n || off % BSIZE == 0
      {
        BlockInside(off0, n, off);
        BlockEnd(off);
        var m := if n - tot < BSIZE - off % BSIZE then n - tot else BSIZE - off % BSIZE;
        OneBlockMore(off0, tot, m);
        MoreBlocks(off0, tot + m, n);
        ghost var before := inodes;
        ok := WriteRound(ino, off, src[tot..tot + m], a, off0, src, slots);
        if !ok {
          return;
        }
        SameButTwice(a.inodes, before, inodes, ino);
        tot, off := tot + m, off + m;
      }
      ok := true;
    }

    /**
     Write `src` at `off`. The code returns -1 without a change when the offset is past
     the end, when off + n wraps around 32 bits, or when the file would grow too long.
     */
    method Writei(ino: nat, off0: nat, src: seq<Byte>) returns (r: int, ok: bool)
      requires Valid(State()) && ino < |inodes| && off0 < UINT_LIMIT && |src| < UINT_LIMIT
      modifies this`store, this`bitmap, this`inodes, this`owner, this`writes, this`base
      ensures !CanWrite(old(inodes[ino].size), off0, |src|) ==> ok && r == -1 && State() == old(State()) && writes == []
      ensures CanWrite(old(inodes[ino].size), off0, |src|) && ok ==>
        && r == |src|
        && Valid(State()) && |inodes| == |old(inodes)| && |store| == |old(store)|
        && Content(State(), ino) == Overwrite(old(Content(State(), ino)), off0, src)
        && forall i :: 0 <= i < |inodes| && i != ino ==>
             inodes[i].size == old(inodes[i].size) && Content(State(), i) == old(Content(State(), i))
      ensures ok ==> Replay(old(InBlocks()), writes) == InBlocks()
      ensures CanWrite(old(inodes[ino].size), off0, |src|) && ok ==>
        Operation(writes, owner, ino, Paths(off0 / BSIZE, BlocksOf(off0, |src|)), |bitmap|, inodes[ino])
      ensures ok ==> Clear(bitmap) + 3 * BlocksOf(off0, |src|) >= Clear(old(bitmap))
      ensures !ok ==> Clear(old(bitmap)) < 3 * BlocksOf(off0, |src|) && forall b :: 0 <= b < |bitmap| ==> bitmap[b]
    {
      hide Tree, Named, Patch, Keeps, Extends, NoHoles, Content, Overwrite, Wrote, Clear, Replay, Confined, Paths;
      ghost var a := State();
      ShapedGood(a);
      writes, base := [], InBlocks();
      NothingWritten(base, owner, ino, {}, |bitmap|);
      var n := |src|;
      if off0 > inodes[ino].size || (off0 + n) % UINT_LIMIT < off0 {
        return -1, true;
      }
      if off0 + n > MAXFILE * BSIZE {
        return -1, true;
      }
      BlocksFit(off0, n);
      ghost var slots := Paths(off0 / BSIZE, BlocksOf(off0, n));
      var off;
      ok, off := WriteLoop(ino, off0, src, a, slots);
      if !ok {
        return 0, false;
      }
      ghost var c := State();
      WroteGood(a, c, ino, off0, off, src);
      if n > 0 {
        if off > inodes[ino].size {
          inodes := inodes[ino := inodes[ino].(size := off)];
        }
        OperationEnds(writes, owner, ino, slots, |base.bitmap|, inodes[ino]);
        Iupdate(ino);
      }
      FinishWrite(a, c, State(), ino, off0, src);
      return n, true;
    }

    /** Read up to `n0` bytes at `off0`. Since files have no holes, bmap finds every block and nothing changes. */
    method Readi(ino: nat, off0: nat, n0: nat) returns (data: seq<Byte>)
      requires Valid(State()) && ino < |inodes| && off0 < UINT_LIMIT && n0 < UINT_LIMIT
      modifies this`store, this`bitmap, this`inodes, this`owner, this`writes, this`base
      ensures State() == old(State()) && writes == []
      ensures Shaped(inodes) && inodes[ino].size <= MAXBYTES
      ensures data == if off0 > inodes[ino].size || off0 + n0 >= UINT_LIMIT then []
                      else Content(State(), ino)[off0..if off0 + n0 > inodes[ino].size then inodes[ino].size
                        else off0 + n0]
    {
      hide Tree, Named, Keeps, Extends, Content, NoHoles, Clear, Confined, Replay;
      ghost var a := State();
      ShapedGood(a);
      MappedBelow(a, ino, 0);
      data := [];
      writes, base := [], InBlocks();
      if off0 > inodes[ino].size || (off0 + n0) % UINT_LIMIT < off0 {
        return;
      }
      var n := if off0 + n0 > inodes[ino].size then inodes[ino].size - off0 else n0;
      var tot, off := 0, off0;
      while tot < n
        invariant 0 <= tot <= n && off == off0 + tot && State() == a
        invariant writes == [] && base == Base(a.store, a.bitmap, a.inodes)
        invariant data == Content(a, ino)[off0..off]
      {
        MappedBelow(a, ino, off);
        NothingWritten(base, owner, ino, Path(off / BSIZE), |base.bitmap|);
        var b := Bmap(ino, off / BSIZE, Path(off / BSIZE));
        BlockInRange(a, ino, SlotOf(off / BSIZE));
        var o := off % BSIZE;
        var m := if n - tot < BSIZE - o then n - tot else BSIZE - o;
        ReadChunk(a, ino, off, m);
        JoinSlices(Content(a, ino), off0, off, off + m);
        data := data + store[b.value][o..o + m];
        tot, off := tot + m, off + m;
      }
    }

    /** Free the block slot `s` names, if any: one step of itrunc. */
    method FreeSlot(x: nat, ghost a: Snap, ghost ino: nat, ghost s: Slot)
      requires Good(a) && ino < |a.inodes| && IsSlot(s) && x == BlockOf(a, ino, s)
      requires Truncating(a, bitmap, ino, Position(s)) && Traces(ino, {})
      modifies this`bitmap, this`writes
      ensures Truncating(a, bitmap, ino, Position(s) + 1) && Traces(ino, {})
    {
      hide Replay;
      FreeStep(a, bitmap, ino, s);
      if x != 0 {
        ConfinedNext(writes, owner, ino, {}, |base.bitmap|, SetBit(x, false));
        var ok := Bfree(x);
        assert ok;  // "freeing free block" is not reached
      }
    }

    /** The inner loop of itrunc: free every block that index block `x`, in slot `p`, names. */
    method FreeEntries(x: nat, ghost a: Snap, ghost ino: nat, ghost p: Slot)
      requires Good(a) && ino < |a.inodes| && (p == Single || p.DoubleEntry?) && IsSlot(p)
      requires x == BlockOf(a, ino, p) != 0
      requires store == a.store && Truncating(a, bitmap, ino, FirstBelow(p)) && Traces(ino, {})
      modifies this`bitmap, this`writes
      ensures Truncating(a, bitmap, ino, Position(p)) && Traces(ino, {})
    {
      hide Replay, Confined;
      BlockInRange(a, ino, p);
      var j := 0;
      while j < NINDIRECT
        invariant 0 <= j <= NINDIRECT && store == a.store
        invariant Truncating(a, bitmap, ino, FirstBelow(p) + j) && Traces(ino, {})
      {
        FreeSlot(GetWord(store[x], j), a, ino, Below(p, j));
        j := j + 1;
      }
    }

    /** Clear address `k` of an inode whose earlier addresses are clear. */
    method ClearAddress(ino: nat, k: nat, ghost a: Snap)
      requires Shaped(a.inodes) && ino < |a.inodes| && k < NDIRECT + 2 && inodes == Cleared(a.inodes, ino, k)
      modifies this`inodes
      ensures inodes == Cleared(a.inodes, ino, k + 1)
    {
      inodes := inodes[ino := inodes[ino].(addrs := inodes[ino].addrs[k := 0])];
      assert inodes[ino].addrs == Cleared(a.inodes, ino, k + 1)[ino].addrs;
    }

    /** The double-indirect part of itrunc. */
    method FreeDouble(x: nat, ghost a: Snap, ghost ino: nat)
      requires Good(a) && ino < |a.inodes| && x == BlockOf(a, ino, Double) != 0
      requires store == a.store && Truncating(a, bitmap, ino, Position(Single) + 1) && Traces(ino, {})
      modifies this`bitmap, this`writes
      ensures Truncating(a, bitmap, ino, Position(Double) + 1) && Traces(ino, {})
    {
      hide Tree, Truncating, Position, FirstBelow, GetWord, Replay, Confined;
      BlockInRange(a, ino, Double);
      Consecutive(0);
      var i := 0;
      while i < NINDIRECT
        invariant 0 <= i <= NINDIRECT && store == a.store
        invariant Truncating(a, bitmap, ino, FirstBelow(DoubleEntry(i))) && Traces(ino, {})
      {
        Consecutive(i);
        var y := GetWord(store[x], i);
        if y != 0 {
          FreeEntries(y, a, ino, DoubleEntry(i));
          FreeSlot(y, a, ino, DoubleEntry(i));
        } else {
          SkipAbsent(a, bitmap, ino, DoubleEntry(i));
        }
        i := i + 1;
      }
      Consecutive(i);
      FreeSlot(x, a, ino, Double);
    }

    /** Frees the blocks of a file in order: direct, single-indirect, double-indirect. */
    method FreeBlocks(ino: nat, ghost a: Snap)
      requires Valid(State()) && a == State() && ino < |inodes| && Shaped(a.inodes) && Traces(ino, {})
      modifies this`bitmap, this`inodes, this`writes
      ensures inodes == Cleared(a.inodes, ino, NDIRECT + 2)
      ensures Truncating(a, bitmap, ino, Position(Double) + 1) && Traces(ino, {})
    {
      hide Tree, Truncating, NoHoles, Content, Position, FirstBelow, Replay, Confined;
      Consecutive(0);
      StartTruncate(a, ino);
      var i := 0;
      while i < NDIRECT
        invariant 0 <= i <= NDIRECT && inodes == Cleared(a.inodes, ino, i)
        invariant Truncating(a, bitmap, ino, i) && Traces(ino, {})
      {
        DirectFirst(i);
        FreeSlot(inodes[ino].addrs[i], a, ino, Direct(i));
        ClearAddress(ino, i, a);
        i := i + 1;
      }
      var x := inodes[ino].addrs[NDIRECT];
      if x != 0 {
        FreeEntries(x, a, ino, Single);
        FreeSlot(x, a, ino, Single);
      } else {
        SkipAbsent(a, bitmap, ino, Single);
      }
      ClearAddress(ino, NDIRECT, a);
      x := inodes[ino].addrs[NDIRECT + 1];
      if x != 0 {
        FreeDouble(x, a, ino);
      } else {
        SkipDouble(a, bitmap, ino);
      }
      ClearAddress(ino, NDIRECT + 1, a);
    }

    /** Discard a file's contents: every block it reaches is freed once, and no other block is. */
    method Itrunc(ino: nat)
      requires Valid(State()) && ino < |inodes|
      modifies this`bitmap, this`inodes, this`owner, this`writes, this`base
      ensures Valid(State()) && |inodes| == |old(inodes)|
      ensures Replay(old(InBlocks()), writes) == InBlocks()
      ensures Operation(writes, owner, ino, {}, |bitmap|, inodes[ino])
      ensures inodes == old(inodes)[ino := Inode(0, NO_ADDRS)]
      ensures |bitmap| == |old(bitmap)| && forall b :: 0 <= b < |bitmap| ==>
        (bitmap[b] <==> old(bitmap)[b] && !(b in old(owner) && old(owner)[b].ino == ino))
      ensures Content(State(), ino) == []
      ensures forall i :: 0 <= i < |inodes| && i != ino ==> Content(State(), i) == old(Content(State(), i))
    {
      hide Tree, Truncating, NoHoles, Content, Position, Replay, Confined;
      ghost var a := State();
      ShapedGood(a);
      writes, base := [], InBlocks();
      NothingWritten(base, owner, ino, {}, |bitmap|);
      FreeBlocks(ino, a);
      assert inodes[ino].addrs == NO_ADDRS;
      inodes := inodes[ino := inodes[ino].(size := 0)];
      ghost var ws, owner0 := writes, owner;
      Iupdate(ino);
      owner := map b | b in owner && owner[b].ino != ino :: owner[b];
      FinishTruncate(a, State(), ino);
      OnlyBits(ws, owner0, owner, ino, |base.bitmap|);
      OperationEnds(ws, owner, ino, {}, |base.bitmap|, inodes[ino]);
    }
  }
}
