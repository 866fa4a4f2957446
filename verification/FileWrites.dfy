/**
 What one operation on files hands to log_write, in order, and how many different
 blocks that can be.
 */
module FileWrites {
  import opened ByteBlocks
  import opened Common
  import opened FileTree

  /** One log_write: of a bitmap block with one bit changed, of a data or index block, or of an inode's block. */
  datatype Write = SetBit(b: nat, on: bool) | Fill(b: nat, data: ByteBlock) | Node(ino: nat, node: Inode)

  /** The state of the files as blocks hold it. */
  datatype Base = Base(store: Store, bitmap: seq<bool>, inodes: seq<Inode>)

  function Apply(d: Base, w: Write): Base {
    match w
    case SetBit(b, on) => if b < |d.bitmap| then d.(bitmap := d.bitmap[b := on]) else d
    case Fill(b, data) => if b < |d.store| then d.(store := d.store[b := data]) else d
    case Node(ino, node) => if ino < |d.inodes| then d.(inodes := d.inodes[ino := node]) else d
  }

  /** The state after all the writes. */
  function Replay(d: Base, ws: seq<Write>): Base {
    if ws == [] then d else Apply(Replay(d, ws[..|ws| - 1]), ws[|ws| - 1])
  }

  lemma ReplayNext(d: Base, ws: seq<Write>, w: Write)
    ensures Replay(d, ws + [w]) == Apply(Replay(d, ws), w)
  {
    assert (ws + [w])[..|ws|] == ws;
  }

  /** Only inode `ino` differs. */
  ghost predicate SameBut(a: seq<Inode>, b: seq<Inode>, ino: nat) {
    |a| == |b| && forall i :: 0 <= i < |a| && i != ino ==> b[i] == a[i]
  }

  lemma SlotInodes(inodes: seq<Inode>, ino: nat, s: Slot, v: nat)
    requires Shaped(inodes) && ino < |inodes| && IsSlot(s)
    ensures SameBut(inodes, SetInodes(inodes, ino, s, v), ino)
  {}

  /**
   Before the inode is written: every block written whole belongs to one of the slots
   `slots` of inode `ino`, and every bit is one of the `size` bits there are.
   */
  ghost predicate Confined(ws: seq<Write>, owner: map<nat, Place>, ino: nat, slots: set<Slot>, size: nat) {
    forall i :: 0 <= i < |ws| ==> WriteConfined(ws[i], owner, ino, slots, size)
  }

  ghost predicate WriteConfined(w: Write, owner: map<nat, Place>, ino: nat, slots: set<Slot>, size: nat) {
    match w
    case SetBit(b, _) => b < size
    case Fill(b, _) => b in owner && owner[b].ino == ino && owner[b].s in slots
    case Node(_, _) => false
  }

  /** A whole operation: nothing, or such writes and then the inode. */
  ghost predicate Operation(ws: seq<Write>, owner: map<nat, Place>, ino: nat, slots: set<Slot>, size: nat,
                            node: Inode) {
    || ws == []
    || (ws[|ws| - 1] == Node(ino, node) && Confined(ws[..|ws| - 1], owner, ino, slots, size))
  }

  lemma OperationEnds(ws: seq<Write>, owner: map<nat, Place>, ino: nat, slots: set<Slot>, size: nat, node: Inode)
    requires Confined(ws, owner, ino, slots, size)
    ensures Operation(ws + [Node(ino, node)], owner, ino, slots, size, node)
  {
    assert (ws + [Node(ino, node)])[..|ws|] == ws;
  }

  /** Giving block `v` to a slot writes its bit, the block itself, and the index block the slot is in. */
  lemma ConfinedGrow(ws: seq<Write>, owner: map<nat, Place>, ino: nat, s: Slot, v: nat, slots: set<Slot>, size: nat,
                     rest: seq<Write>)
    requires Confined(ws, owner, ino, slots, size) && s in slots && v !in owner
    requires forall i :: 0 <= i < |rest| ==>
      (rest[i].Fill? && rest[i].b == v) || WriteConfined(rest[i], owner, ino, slots, size)
    ensures Confined(ws + rest, owner[v := Place(ino, s)], ino, slots, size)
  {}

  lemma NothingWritten(d: Base, owner: map<nat, Place>, ino: nat, slots: set<Slot>, size: nat)
    ensures Replay(d, []) == d && Confined([], owner, ino, slots, size)
  {}

  lemma ConfinedNext(ws: seq<Write>, owner: map<nat, Place>, ino: nat, slots: set<Slot>, size: nat, w: Write)
    requires Confined(ws, owner, ino, slots, size) && WriteConfined(w, owner, ino, slots, size)
    ensures Confined(ws + [w], owner, ino, slots, size)
  {}

  /** With no slots only bits are written, whoever owns what. */
  lemma OnlyBits(ws: seq<Write>, owner: map<nat, Place>, owner': map<nat, Place>, ino: nat, size: nat)
    requires Confined(ws, owner, ino, {}, size)
    ensures Confined(ws, owner', ino, {}, size)
  {}

  // ---- Free blocks ----

  /** How many blocks are free. */
  ghost function Clear(bits: seq<bool>): nat {
    if bits == [] then 0 else Clear(bits[..|bits| - 1]) + if bits[|bits| - 1] then 0 else 1
  }

  lemma {:induction false} ClearSet(bits: seq<bool>, b: nat)
    requires b < |bits| && !bits[b]
    ensures Clear(bits[b := true]) + 1 == Clear(bits)
  {
    var n := |bits| - 1;
    if b == n {
      assert bits[b := true][..n] == bits[..n];
    } else {
      assert bits[b := true][..n] == bits[..n][b := true];
      ClearSet(bits[..n], b);
    }
  }

  lemma {:induction false} ClearNone(bits: seq<bool>)
    requires forall b :: 0 <= b < |bits| ==> bits[b]
    ensures Clear(bits) == 0
  {
    if bits != [] {
      ClearNone(bits[..|bits| - 1]);
    }
  }

  // ---- The slots a write touches ----

  /** The slot of the bn-th block of a file, and those of the index blocks on the way to it. */
  function Path(bn: nat): set<Slot>
    requires bn < MAXFILE
  {
    match SlotOf(bn)
    case SingleEntry(j) => {SingleEntry(j), Single}
    case Leaf(i, j) => {Leaf(i, j), DoubleEntry(i), Double}
    case s => {s}
  }

  /** Those of `n` blocks from `lo` on. */
  function Paths(lo: nat, n: nat): (r: set<Slot>)
    requires lo + n <= MAXFILE
    ensures forall s :: s in r ==> IsSlot(s)
  {
    if n == 0 then {} else Paths(lo, n - 1) + Path(lo + n - 1)
  }

  lemma {:induction false} PathsHave(lo: nat, n: nat, bn: nat)
    requires lo + n <= MAXFILE && lo <= bn < lo + n
    ensures Path(bn) <= Paths(lo, n)
  {
    if bn < lo + n - 1 {
      PathsHave(lo, n - 1, bn);
    }
  }

  /** How many blocks of a file `n` bytes at `off` fall on. */
  function BlocksOf(off: nat, n: nat): nat {
    if n == 0 then 0 else (off + n - 1) / BSIZE - off / BSIZE + 1
  }

  /** A write the size test lets pass falls on blocks a file can have. */
  lemma BlocksFit(off: nat, n: nat)
    requires off + n <= MAXFILE * BSIZE
    ensures off / BSIZE + BlocksOf(off, n) <= MAXFILE
  {}

  lemma BlockInside(off: nat, n: nat, a: nat)
    requires off <= a < off + n <= MAXFILE * BSIZE
    ensures off / BSIZE + BlocksOf(off, n) <= MAXFILE && a / BSIZE < MAXFILE
    ensures Path(a / BSIZE) <= Paths(off / BSIZE, BlocksOf(off, n))
  {
    PathsHave(off / BSIZE, BlocksOf(off, n), a / BSIZE);
  }

  /** The next part of a write, up to the end of a block, falls on one block more. */
  lemma OneBlockMore(off: nat, tot: nat, m: nat)
    requires m > 0 && (off + tot) % BSIZE + m <= BSIZE && (tot == 0 || (off + tot) % BSIZE == 0)
    ensures BlocksOf(off, tot + m) == BlocksOf(off, tot) + 1
  {
    var q := (off + tot) / BSIZE;
    assert (off + tot + m - 1) / BSIZE == q;
    if tot > 0 {
      assert (off + tot - 1) / BSIZE == q - 1;
    }
  }

  lemma NoBlocks(off: nat, inodes: seq<Inode>, ino: nat)
    ensures BlocksOf(off, 0) == 0 && SameBut(inodes, inodes, ino)
  {}

  lemma BlockEnd(off: nat)
    ensures (off + (BSIZE - off % BSIZE)) % BSIZE == 0 && off % BSIZE < BSIZE
  {}

  lemma SameButTwice(a: seq<Inode>, b: seq<Inode>, c: seq<Inode>, ino: nat)
    requires SameBut(a, b, ino) && SameBut(b, c, ino)
    ensures SameBut(a, c, ino)
  {}

  lemma MoreBlocks(off: nat, m: nat, n: nat)
    requires m <= n
    ensures BlocksOf(off, m) <= BlocksOf(off, n)
  {
    if m > 0 {
      assert (off + m - 1) / BSIZE <= (off + n - 1) / BSIZE;
    }
  }

  /** At most so many slots are on the paths to `n` blocks in a row: the blocks, and the index blocks. */
  function PathsBound(n: nat): nat {
    n + n / NINDIRECT + 3
  }

  function DataSlots(lo: nat, n: nat): (r: set<Slot>)
    requires lo + n <= MAXFILE
    ensures |r| <= n
  {
    if n == 0 then {} else DataSlots(lo, n - 1) + {SlotOf(lo + n - 1)}
  }

  function Entries(lo: nat, hi: nat): (r: set<Slot>)
    ensures |r| <= if lo < hi then hi - lo else 0
    ensures forall i :: lo <= i < hi ==> DoubleEntry(i) in r
    decreases hi
  {
    if hi <= lo then {} else Entries(lo, hi - 1) + {DoubleEntry(hi - 1)}
  }

  /** The index slots among them. */
  function IndexSlots(lo: nat, n: nat): set<Slot> {
    var base := NDIRECT + NINDIRECT;
    var first := if lo < base then 0 else (lo - base) / NINDIRECT;
    var last := if lo + n <= base then 0 else (lo + n - 1 - base) / NINDIRECT + 1;
    (if lo < base then {Single} else {}) + (if lo + n > base then {Double} else {}) + Entries(first, last)
  }

  lemma {:induction false} PathsWithin(lo: nat, n: nat, m: nat)
    requires lo + n <= MAXFILE && m <= n
    ensures Paths(lo, m) <= DataSlots(lo, m) + IndexSlots(lo, n)
  {
    if m > 0 {
      PathsWithin(lo, n, m - 1);
      PathWithin(lo, n, lo + m - 1);
    }
  }

  lemma PathWithin(lo: nat, n: nat, bn: nat)
    requires lo + n <= MAXFILE && lo <= bn < lo + n
    ensures Path(bn) <= {SlotOf(bn)} + IndexSlots(lo, n)
  {
    var base := NDIRECT + NINDIRECT;
    if bn >= base {
      var i := (bn - base) / NINDIRECT;
      assert (if lo < base then 0 else (lo - base) / NINDIRECT) <= i <= (lo + n - 1 - base) / NINDIRECT;
    }
  }

  lemma IndexFew(lo: nat, n: nat)
    ensures |IndexSlots(lo, n)| <= n / NINDIRECT + 3
  {
    var base := NDIRECT + NINDIRECT;
    var a: set<Slot> := if lo < base then {Single} else {};
    var b: set<Slot> := if lo + n > base then {Double} else {};
    var first := if lo < base then 0 else (lo - base) / NINDIRECT;
    var last := if lo + n <= base then 0 else (lo + n - 1 - base) / NINDIRECT + 1;
    assert |a + b + Entries(first, last)| <= |a| + |b| + |Entries(first, last)|;
  }

  lemma PathsFew(lo: nat, n: nat)
    requires lo + n <= MAXFILE
    ensures |Paths(lo, n)| <= PathsBound(n)
  {
    hide IndexSlots, Paths, DataSlots;
    PathsWithin(lo, n, n);
    IndexFew(lo, n);
    SubsetSize(Paths(lo, n), DataSlots(lo, n) + IndexSlots(lo, n));
  }
}
