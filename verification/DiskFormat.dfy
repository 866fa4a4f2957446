/**
 The files as disk blocks: inodes, bitmap and data in their places, what each log_write
 changes there, and that one disk holds one set of files.
 */
module DiskFormat {
  import opened Blocks
  import opened BufferCache
  import opened ByteBlocks
  import opened Common
  import opened FileWrites
  import opened RedoLog
  import FileTree
  import Files

  const INODES_PER_BLOCK := 16
  const WORDS_PER_INODE := 16
  const BITS_PER_WORD := 32

  /** The superblock: where the log, the inodes, the bitmap and the data blocks are. */
  datatype Super = Super(size: nat, ninodes: nat, l: Layout, inodestart: nat, bmapstart: nat, datastart: nat)

  /** The order mkfs lays the disk out in. */
  predicate LaidOut(sb: Super) {
    && 1 <= sb.l.size && sb.l.start + sb.l.size <= sb.inodestart
    && sb.inodestart + sb.ninodes / INODES_PER_BLOCK + 1 <= sb.bmapstart
    && sb.bmapstart + sb.size / Files.BITS_PER_BLOCK + 1 <= sb.datastart <= sb.size <= UINT_LIMIT
  }

  predicate Laid(sb: Super, d: Disk) {
    LaidOut(sb) && |d| == sb.size
  }

  // ---- Reading the state off a disk ----

  /** Bit `k` of a word. */
  function Bit(w: nat, k: nat): bool {
    if k == 0 then w % 2 == 1 else Bit(w / 2, k - 1)
  }

  function BitAt(sb: Super, d: Disk, b: nat): bool
    requires Laid(sb, d) && b < sb.size
  {
    var k := b % Files.BITS_PER_BLOCK;
    Bit(d[sb.bmapstart + b / Files.BITS_PER_BLOCK][k / BITS_PER_WORD], k % BITS_PER_WORD)
  }

  /** Word `k` of inode `i`: the size is word 2, the addresses follow. */
  function InodeWord(sb: Super, d: Disk, i: nat, k: nat): Word
    requires Laid(sb, d) && i < sb.ninodes && k < WORDS_PER_INODE
  {
    d[sb.inodestart + i / INODES_PER_BLOCK][i % INODES_PER_BLOCK * WORDS_PER_INODE + k]
  }

  ghost predicate InodeIs(sb: Super, d: Disk, i: nat, node: FileTree.Inode)
    requires Laid(sb, d) && i < sb.ninodes
  {
    && |node.addrs| == FileTree.NDIRECT + 2
    && node.size == InodeWord(sb, d, i, 2)
    && forall k :: 0 <= k < FileTree.NDIRECT + 2 ==> node.addrs[k] == InodeWord(sb, d, i, 3 + k)
  }

  ghost predicate BlockIs(d: Disk, b: nat, bytes: ByteBlock)
    requires b < |d|
  {
    forall i :: 0 <= i < WORDS ==> d[b][i] == GetWord(bytes, i)
  }

  /** Disk `d` holds the state `f`, block by block. */
  ghost predicate HoldsBase(sb: Super, d: Disk, f: Base) {
    && Laid(sb, d)
    && |f.store| == |f.bitmap| == sb.size && |f.inodes| == sb.ninodes
    && (forall b :: sb.datastart <= b < sb.size ==> BlockIs(d, b, f.store[b]))
    && (forall b :: 0 <= b < sb.size ==> f.bitmap[b] == BitAt(sb, d, b))
    && (forall i :: 0 <= i < sb.ninodes ==> InodeIs(sb, d, i, f.inodes[i]))
  }

  ghost function BaseOf(f: Files.Snap): Base {
    Base(f.store, f.bitmap, f.inodes)
  }

  /** Disk `d` holds the file system state `f`. */
  ghost predicate Stores(sb: Super, d: Disk, f: Files.Snap) {
    HoldsBase(sb, d, BaseOf(f)) && f.dataStart == sb.datastart
  }

  lemma {:induction false} BitMeans(w: nat, k: nat)
    ensures Bit(w, k) <==> w / Pow2(k) % 2 == 1
    decreases k
  {
    if k > 0 {
      BitMeans(w / 2, k - 1);
      DivDiv(w, Pow2(k - 1));
    }
  }

  lemma DivDiv(w: nat, m: nat)
    requires m > 0
    ensures w / 2 / m == w / (2 * m)
  {
    var q := w / (2 * m);
    var r := w - 2 * m * q;
    assert w / 2 == m * q + r / 2 && r / 2 < m;
    assert (m * q + r / 2) / m == q by { QuotientOf(m, q, r / 2); }
  }

  lemma QuotientOf(m: nat, q: nat, r: nat)
    requires r < m
    ensures (m * q + r) / m == q
  {
    var x := (m * q + r) / m;
    assert m * x <= m * q + r < m * (x + 1);
    TimesMore(m, x + 1, q);
    TimesMore(m, q + 1, x);
  }

  lemma TimesMore(m: nat, a: nat, b: nat)
    ensures a <= b ==> m * a <= m * b
  {}

  /**
   Where things are on a disk that holds a state: block b's bit is bit b % 32 of a word, counted from the
   lowest, the size of inode i is the third of its sixteen words and the addresses follow, and
   data blocks are stored as they are.
   */
  lemma OnDisk(sb: Super, d: Disk, f: Base, b: nat, i: nat, k: nat)
    requires HoldsBase(sb, d, f) && b < sb.size && i < sb.ninodes && k < 13
    ensures sb.bmapstart + b / 8192 < |d| && sb.inodestart + i / 16 < |d|
    ensures f.bitmap[b] <==> d[sb.bmapstart + b / 8192][b % 8192 / 32] / Pow2(b % 32) % 2 == 1
    ensures |f.inodes[i].addrs| == 13 && f.inodes[i].size == d[sb.inodestart + i / 16][i % 16 * 16 + 2]
    ensures f.inodes[i].addrs[k] == d[sb.inodestart + i / 16][i % 16 * 16 + 3 + k]
    ensures b >= sb.datastart ==> forall w :: 0 <= w < 256 ==> d[b][w] == GetWord(f.store[b], w)
  {
    hide Bit, Pow2, GetWord;
    BitBlock(sb, b);
    InodeBlock(sb, i);
    assert f.bitmap[b] == BitAt(sb, d, b);
    assert InodeIs(sb, d, i, f.inodes[i]);
    BitMeans(d[sb.bmapstart + b / 8192][b % 8192 / 32], b % 32);
    if b >= sb.datastart {
      assert BlockIs(d, b, f.store[b]);
    }
  }

  /** What is outside the log decides. */
  lemma HomeDecides(sb: Super, d: Disk, e: Disk, f: Files.Snap)
    requires Stores(sb, d, f) && SameHome(sb.l, d, e)
    ensures Stores(sb, e, f)
  {
    forall b | 0 <= b < sb.size
      ensures BitAt(sb, e, b) == BitAt(sb, d, b)
    {
      BitBlock(sb, b);
    }
    forall i, k | 0 <= i < sb.ninodes && 0 <= k < WORDS_PER_INODE
      ensures InodeWord(sb, e, i, k) == InodeWord(sb, d, i, k)
    {
      InodeBlock(sb, i);
    }
    forall i | 0 <= i < sb.ninodes
      ensures InodeIs(sb, e, i, f.inodes[i])
    {
      assert InodeIs(sb, d, i, f.inodes[i]);
    }
    forall b | sb.datastart <= b < sb.size
      ensures BlockIs(e, b, f.store[b])
    {
      assert BlockIs(d, b, f.store[b]);
    }
  }

  /**
   What no write to a file may touch: the blocks before the log, with the superblock, and of every
   inode its first two words, which are mode, type, device numbers and link count.
   */
  ghost predicate SameRest(sb: Super, d: Disk, e: Disk) {
    && Laid(sb, d) && Laid(sb, e)
    && (forall b :: 0 <= b < sb.inodestart && !InLog(sb.l, b) ==> e[b] == d[b])
    && (forall i, k :: 0 <= i < sb.ninodes && 0 <= k < 2 ==> InodeWord(sb, e, i, k) == InodeWord(sb, d, i, k))
  }

  lemma HomeKeepsRest(sb: Super, d: Disk, e: Disk)
    requires Laid(sb, d) && SameHome(sb.l, d, e)
    ensures SameRest(sb, d, e)
  {
    forall i, k | 0 <= i < sb.ninodes && 0 <= k < 2
      ensures InodeWord(sb, e, i, k) == InodeWord(sb, d, i, k)
    {
      InodeBlock(sb, i);
    }
  }

  lemma RestTwice(sb: Super, d: Disk, e: Disk, e': Disk)
    requires SameRest(sb, d, e) && SameRest(sb, e, e')
    ensures SameRest(sb, d, e')
  {
    hide InodeWord;
    forall i, k | 0 <= i < sb.ninodes && 0 <= k < 2
      ensures InodeWord(sb, e', i, k) == InodeWord(sb, d, i, k)
    {
      assert InodeWord(sb, e, i, k) == InodeWord(sb, d, i, k);
    }
  }

  lemma BitBlock(sb: Super, b: nat)
    requires b < sb.size
    ensures sb.bmapstart + b / Files.BITS_PER_BLOCK < sb.bmapstart + sb.size / Files.BITS_PER_BLOCK + 1
  {}

  lemma InodeBlock(sb: Super, i: nat)
    requires i < sb.ninodes
    ensures sb.inodestart + i / INODES_PER_BLOCK < sb.inodestart + sb.ninodes / INODES_PER_BLOCK + 1
  {}

  // ---- Writing the state to disk blocks ----

  function Pow2(n: nat): (r: nat)
    ensures r > 0
  {
    if n == 0 then 1 else 2 * Pow2(n - 1)
  }

  /** `n` bits from `p` on, the first one lowest. */
  function Packed(bits: seq<bool>, p: nat, n: nat): (w: nat)
    ensures w < Pow2(n)
    decreases n
  {
    if n == 0 then 0 else (if p < |bits| && bits[p] then 1 else 0) + 2 * Packed(bits, p + 1, n - 1)
  }

  lemma {:induction false} PackedBit(bits: seq<bool>, p: nat, n: nat, k: nat)
    requires k < n
    ensures Bit(Packed(bits, p, n), k) == (p + k < |bits| && bits[p + k])
    decreases n
  {
    if k > 0 {
      PackedBit(bits, p + 1, n - 1, k - 1);
      assert Packed(bits, p, n) / 2 == Packed(bits, p + 1, n - 1);
    }
  }

  lemma WordLimit()
    ensures Pow2(BITS_PER_WORD) == UINT_LIMIT
  {
    assert Pow2(8) == 256;
    assert Pow2(16) == 256 * Pow2(8);
    assert Pow2(24) == 256 * Pow2(16);
    assert Pow2(32) == 256 * Pow2(24);
  }

  function PackedWord(bits: seq<bool>, p: nat): Word {
    WordLimit();
    Packed(bits, p, BITS_PER_WORD)
  }

  /** Block `m` of the bitmap. */
  function BitmapBlock(bits: seq<bool>, m: nat): (r: Block)
    ensures forall w :: 0 <= w < WORDS ==> r[w] == PackedWord(bits, m * Files.BITS_PER_BLOCK + w * BITS_PER_WORD)
  {
    seq(WORDS, w requires 0 <= w < WORDS => PackedWord(bits, m * Files.BITS_PER_BLOCK + w * BITS_PER_WORD))
  }

  predicate FitsWords(node: FileTree.Inode) {
    && |node.addrs| == FileTree.NDIRECT + 2 && node.size < UINT_LIMIT
    && forall k :: 0 <= k < |node.addrs| ==> node.addrs[k] < UINT_LIMIT
  }

  /** Word `k` of an inode; mode, type, device and link count stay as they are. */
  function WordOfInode(node: FileTree.Inode, k: nat, was: Word): Word
    requires FitsWords(node) && k < WORDS_PER_INODE
  {
    if k < 2 then was else if k == 2 then node.size else node.addrs[k - 3]
  }

  /** Block `m` of the inodes. */
  function InodesBlock(inodes: seq<FileTree.Inode>, m: nat, was: Block): Block
    requires forall i :: 0 <= i < |inodes| ==> FitsWords(inodes[i])
  {
    seq(WORDS, w requires 0 <= w < WORDS =>
      var i := m * INODES_PER_BLOCK + w / WORDS_PER_INODE;
      if i < |inodes| then WordOfInode(inodes[i], w % WORDS_PER_INODE, was[w]) else was[w])
  }

  function Words(bytes: ByteBlock): (r: Block)
    ensures forall i :: 0 <= i < WORDS ==> r[i] == GetWord(bytes, i)
  {
    seq(WORDS, i requires 0 <= i < WORDS => GetWord(bytes, i))
  }

  ghost predicate Storable(sb: Super, d: Disk, f: Files.Snap) {
    && Laid(sb, d)
    && |f.store| == |f.bitmap| == sb.size && |f.inodes| == sb.ninodes && f.dataStart == sb.datastart
    && forall i :: 0 <= i < |f.inodes| ==> FitsWords(f.inodes[i])
  }

  /** Block `b` of a disk that holds the state, where `was` is its block now. */
  function Encoded(sb: Super, store: FileTree.Store, bitmap: seq<bool>, inodes: seq<FileTree.Inode>, b: nat,
                   was: Block): Block
    requires |store| == sb.size && b < sb.size
    requires forall i :: 0 <= i < |inodes| ==> FitsWords(inodes[i])
  {
    if b >= sb.datastart then Words(store[b])
    else if sb.bmapstart <= b then BitmapBlock(bitmap, b - sb.bmapstart)
    else if sb.inodestart <= b then InodesBlock(inodes, b - sb.inodestart, was)
    else was
  }

  ghost predicate IsEncoded(sb: Super, d: Disk, f: Files.Snap, e: Disk) {
    && Storable(sb, d, f) && |e| == |d|
    && forall b :: 0 <= b < |d| ==> e[b] == Encoded(sb, f.store, f.bitmap, f.inodes, b, d[b])
  }

  lemma EncodedBit(sb: Super, d: Disk, f: Files.Snap, e: Disk, b: nat)
    requires IsEncoded(sb, d, f, e) && b < sb.size
    ensures f.bitmap[b] == BitAt(sb, e, b)
  {
    hide Bit, Packed, Pow2;
    var m, k := b / Files.BITS_PER_BLOCK, b % Files.BITS_PER_BLOCK;
    BitBlock(sb, b);
    assert e[sb.bmapstart + m] == BitmapBlock(f.bitmap, m);
    PackedBit(f.bitmap, m * Files.BITS_PER_BLOCK + k / BITS_PER_WORD * BITS_PER_WORD, BITS_PER_WORD, k % BITS_PER_WORD);
  }

  lemma InodesBlockAt(inodes: seq<FileTree.Inode>, m: nat, was: Block, o: nat, k: nat)
    requires forall i :: 0 <= i < |inodes| ==> FitsWords(inodes[i])
    requires o < INODES_PER_BLOCK && k < WORDS_PER_INODE && m * INODES_PER_BLOCK + o < |inodes|
    ensures InodesBlock(inodes, m, was)[o * WORDS_PER_INODE + k]
         == WordOfInode(inodes[m * INODES_PER_BLOCK + o], k, was[o * WORDS_PER_INODE + k])
  {
    hide WordOfInode, FitsWords;
    InodePlace(o, k);
  }

  lemma EncodedWord(sb: Super, d: Disk, f: Files.Snap, e: Disk, i: nat, k: nat)
    requires IsEncoded(sb, d, f, e) && i < sb.ninodes && k < WORDS_PER_INODE
    ensures FitsWords(f.inodes[i])
    ensures InodeWord(sb, e, i, k) == WordOfInode(f.inodes[i], k, InodeWord(sb, d, i, k))
  {
    hide WordOfInode, FitsWords, Words, BitmapBlock, InodesBlock;
    var m, o := i / INODES_PER_BLOCK, i % INODES_PER_BLOCK;
    InodeBlock(sb, i);
    InodesBlockAt(f.inodes, m, d[sb.inodestart + m], o, k);
    assert e[sb.inodestart + m] == InodesBlock(f.inodes, m, d[sb.inodestart + m]);
  }

  lemma EncodedInode(sb: Super, d: Disk, f: Files.Snap, e: Disk, i: nat)
    requires IsEncoded(sb, d, f, e) && i < sb.ninodes
    ensures InodeIs(sb, e, i, f.inodes[i])
  {
    hide InodeWord, Encoded;
    forall k | 0 <= k < WORDS_PER_INODE
      ensures FitsWords(f.inodes[i])
      ensures InodeWord(sb, e, i, k) == WordOfInode(f.inodes[i], k, InodeWord(sb, d, i, k))
    {
      EncodedWord(sb, d, f, e, i, k);
    }
  }

  lemma InodePlace(o: nat, k: nat)
    requires o < INODES_PER_BLOCK && k < WORDS_PER_INODE
    ensures o * WORDS_PER_INODE + k < WORDS
    ensures (o * WORDS_PER_INODE + k) / WORDS_PER_INODE == o && (o * WORDS_PER_INODE + k) % WORDS_PER_INODE == k
  {}

  /** What is written is what is read. */
  lemma EncodedStores(sb: Super, d: Disk, f: Files.Snap, e: Disk)
    requires IsEncoded(sb, d, f, e)
    ensures Stores(sb, e, f)
  {
    hide Encoded, BitAt, InodeIs;
    forall b | sb.datastart <= b < sb.size
      ensures BlockIs(e, b, f.store[b])
    {
      EncodedData(sb, d, f, e, b);
    }
    forall b | 0 <= b < sb.size
      ensures f.bitmap[b] == BitAt(sb, e, b)
    {
      EncodedBit(sb, d, f, e, b);
    }
    forall i | 0 <= i < sb.ninodes
      ensures InodeIs(sb, e, i, f.inodes[i])
    {
      EncodedInode(sb, d, f, e, i);
    }
  }

  lemma EncodedData(sb: Super, d: Disk, f: Files.Snap, e: Disk, b: nat)
    requires IsEncoded(sb, d, f, e) && sb.datastart <= b < sb.size
    ensures BlockIs(e, b, f.store[b])
  {
    assert e[b] == Words(f.store[b]);
  }

  // ---- A disk holds one set of files ----

  lemma LowByte(x: Byte, r: int, y: Byte, t: int)
    requires x + 0x100 * r == y + 0x100 * t
    ensures x == y && r == t
  {}

  lemma FourBytes(a0: Byte, a1: Byte, a2: Byte, a3: Byte, b0: Byte, b1: Byte, b2: Byte, b3: Byte)
    requires WordOf(a0, a1, a2, a3) == WordOf(b0, b1, b2, b3)
    ensures a0 == b0 && a1 == b1 && a2 == b2 && a3 == b3
  {
    var a: int, b: int := a2 as int + 0x100 * a3 as int, b2 as int + 0x100 * b3 as int;
    LowByte(a0, a1 as int + 0x100 * a, b0, b1 as int + 0x100 * b);
    LowByte(a1, a, b1, b);
    LowByte(a2, a3, b2, b3);
  }

  lemma WordDecides(a: ByteBlock, b: ByteBlock, i: nat)
    requires i < WORDS && GetWord(a, i) == GetWord(b, i)
    ensures a[4 * i] == b[4 * i] && a[4 * i + 1] == b[4 * i + 1]
    ensures a[4 * i + 2] == b[4 * i + 2] && a[4 * i + 3] == b[4 * i + 3]
  {
    hide WordOf;
    FourBytes(a[4 * i], a[4 * i + 1], a[4 * i + 2], a[4 * i + 3], b[4 * i], b[4 * i + 1], b[4 * i + 2], b[4 * i + 3]);
  }

  lemma BytesDecided(d: Disk, x: nat, a: ByteBlock, b: ByteBlock)
    requires x < |d| && BlockIs(d, x, a) && BlockIs(d, x, b)
    ensures a == b
  {
    forall k | 0 <= k < BSIZE
      ensures a[k] == b[k]
    {
      WordDecides(a, b, k / 4);
    }
  }

  lemma SameBlockOf(sb: Super, d: Disk, f: Files.Snap, g: Files.Snap, ino: nat, s: FileTree.Slot)
    requires Stores(sb, d, f) && Stores(sb, d, g) && Files.Good(f) && Files.Good(g)
    requires ino < sb.ninodes && FileTree.IsSlot(s)
    ensures Files.BlockOf(f, ino, s) == Files.BlockOf(g, ino, s)
    decreases s.Leaf?, FileTree.HasParent(s)
  {
    hide BitAt, GetWord, FileTree.Exact, FileTree.Marked;
    assert InodeIs(sb, d, ino, f.inodes[ino]) && InodeIs(sb, d, ino, g.inodes[ino]);
    assert f.inodes[ino].addrs == g.inodes[ino].addrs;
    if FileTree.HasParent(s) {
      SameBlockOf(sb, d, f, g, ino, FileTree.Parent(s));
      var x := Files.BlockOf(f, ino, FileTree.Parent(s));
      if x != 0 {
        NamedIsData(f, ino, FileTree.Parent(s));
        BytesDecided(d, x, f.store[x], g.store[x]);
      }
    }
  }

  lemma NamedIsData(f: Files.Snap, ino: nat, s: FileTree.Slot)
    requires Files.Good(f) && ino < |f.inodes| && FileTree.IsSlot(s) && Files.BlockOf(f, ino, s) != 0
    ensures f.dataStart <= Files.BlockOf(f, ino, s) < |f.store|
  {
    Files.OwnerOf(f.store, f.inodes, f.owner, ino, s);
  }

  /** The files of two states that one disk holds are the same. */
  lemma DiskDecides(sb: Super, d: Disk, f: Files.Snap, g: Files.Snap, ino: nat)
    requires Stores(sb, d, f) && Stores(sb, d, g) && Files.Valid(f) && Files.Valid(g) && ino < sb.ninodes
    ensures Files.Content(f, ino) == Files.Content(g, ino)
  {
    hide BitAt, FileTree.Tree, Files.BlockOf;
    assert InodeIs(sb, d, ino, f.inodes[ino]) && InodeIs(sb, d, ino, g.inodes[ino]);
    forall k | 0 <= k < f.inodes[ino].size
      ensures Files.ByteAt(f, ino, k) == Files.ByteAt(g, ino, k)
    {
      var s := FileTree.SlotOf(k / BSIZE);
      SameBlockOf(sb, d, f, g, ino, s);
      assert Files.Mapped(f, ino, k);
      NamedIsData(f, ino, s);
      var x := Files.BlockOf(f, ino, s);
      BytesDecided(d, x, f.store[x], g.store[x]);
    }
  }

  /** Block numbers and sizes of a state in order fit their words. */
  lemma ValidFits(f: Files.Snap)
    requires Files.Valid(f)
    ensures forall i :: 0 <= i < |f.inodes| ==> FitsWords(f.inodes[i])
  {
    forall i, k | 0 <= i < |f.inodes| && 0 <= k < FileTree.NDIRECT + 2
      ensures f.inodes[i].addrs[k] < UINT_LIMIT
    {
      var s := if k < FileTree.NDIRECT then FileTree.Direct(k) else if k == FileTree.NDIRECT then FileTree.Single
        else FileTree.Double;
      if f.inodes[i].addrs[k] != 0 {
        NamedIsData(f, i, s);
      }
    }
  }

  lemma LogStays(sb: Super, d: Disk, f: Files.Snap, b: nat)
    requires Storable(sb, d, f) && b < |d|
    ensures InLog(sb.l, b) ==> Encoded(sb, f.store, f.bitmap, f.inodes, b, d[b]) == d[b]
  {}

  // ---- One log_write ----

  /** The block a write goes to. */
  function BlockFor(sb: Super, w: Write): nat {
    match w
    case SetBit(b, _) => sb.bmapstart + b / Files.BITS_PER_BLOCK
    case Fill(b, _) => b
    case Node(ino, _) => sb.inodestart + ino / INODES_PER_BLOCK
  }

  /** A write to a bit, a block or an inode there is. */
  predicate Sound(sb: Super, w: Write) {
    match w
    case SetBit(b, _) => b < sb.size
    case Fill(b, _) => sb.datastart <= b < sb.size
    case Node(ino, node) => ino < sb.ninodes && FitsWords(node)
  }

  /** Word `w` with bit `k` made `on`. */
  function WithBit(w: nat, k: nat, on: bool): nat {
    if k == 0 then w / 2 * 2 + (if on then 1 else 0) else w % 2 + 2 * WithBit(w / 2, k - 1, on)
  }

  lemma {:induction false} WithBitAt(w: nat, k: nat, on: bool, j: nat)
    ensures Bit(WithBit(w, k, on), j) == if j == k then on else Bit(w, j)
  {
    var x := WithBit(w, k, on);
    if k == 0 {
      assert x / 2 == w / 2;
    } else {
      assert x % 2 == w % 2 && x / 2 == WithBit(w / 2, k - 1, on);
      if j > 0 {
        WithBitAt(w / 2, k - 1, on, j - 1);
      }
    }
  }

  lemma {:induction false} WithBitBound(w: nat, k: nat, on: bool, n: nat)
    requires k < n && w < Pow2(n)
    ensures WithBit(w, k, on) < Pow2(n)
  {
    if k > 0 {
      WithBitBound(w / 2, k - 1, on, n - 1);
    }
  }

  function WordWithBit(w: Word, k: nat, on: bool): Word
    requires k < BITS_PER_WORD
  {
    WordLimit();
    WithBitBound(w, k, on, BITS_PER_WORD);
    WithBit(w, k, on)
  }

  /** What the write makes of the block. */
  function Changed(w: Write, was: Block): Block {
    match w
    case SetBit(b, on) =>
      var k := b % Files.BITS_PER_BLOCK;
      was[k / BITS_PER_WORD := WordWithBit(was[k / BITS_PER_WORD], k % BITS_PER_WORD, on)]
    case Fill(_, data) => Words(data)
    case Node(ino, node) => if FitsWords(node) then WithInode(was, ino % INODES_PER_BLOCK, node) else was
  }

  /** A block of inodes with the `o`-th replaced. */
  function WithInode(was: Block, o: nat, node: FileTree.Inode): (r: Block)
    requires FitsWords(node)
    ensures forall i :: 0 <= i < WORDS ==>
      r[i] == if i / WORDS_PER_INODE == o then WordOfInode(node, i % WORDS_PER_INODE, was[i]) else was[i]
  {
    seq(WORDS, i requires 0 <= i < WORDS =>
      if i / WORDS_PER_INODE == o then WordOfInode(node, i % WORDS_PER_INODE, was[i]) else was[i])
  }

  /** A sound write goes outside the log, and to the part of the disk that is for such writes. */
  lemma WriteGoesHome(sb: Super, w: Write)
    requires LaidOut(sb) && Sound(sb, w)
    ensures BlockFor(sb, w) < sb.size && !InLog(sb.l, BlockFor(sb, w))
    ensures w.SetBit? ==> sb.bmapstart <= BlockFor(sb, w) < sb.datastart
    ensures w.Fill? ==> sb.datastart <= BlockFor(sb, w)
    ensures w.Node? ==> sb.inodestart <= BlockFor(sb, w) < sb.bmapstart
  {
    match w
    case SetBit(b, _) => BitBlock(sb, b);
    case Fill(_, _) =>
    case Node(ino, _) => InodeBlock(sb, ino);
  }

  lemma BitWritten(sb: Super, d: Disk, b: nat, on: bool, e: Disk, x: nat)
    requires Laid(sb, d) && b < sb.size && x < sb.size
    requires var t := BlockFor(sb, SetBit(b, on)); t < |d| && e == d[t := Changed(SetBit(b, on), d[t])]
    ensures BitAt(sb, e, x) == if x == b then on else BitAt(sb, d, x)
  {
    hide Bit, WithBit, Pow2;
    BitBlock(sb, b);
    BitBlock(sb, x);
    var k, j := b % Files.BITS_PER_BLOCK, x % Files.BITS_PER_BLOCK;
    WithBitAt(d[sb.bmapstart + b / Files.BITS_PER_BLOCK][k / BITS_PER_WORD], k % BITS_PER_WORD, on, j % BITS_PER_WORD);
    SamePlace(b, x);
  }

  /** A bit is its block, word and position. */
  lemma SamePlace(b: nat, x: nat)
    ensures b == x <==>
      && b / Files.BITS_PER_BLOCK == x / Files.BITS_PER_BLOCK
      && b % Files.BITS_PER_BLOCK / BITS_PER_WORD == x % Files.BITS_PER_BLOCK / BITS_PER_WORD
      && b % Files.BITS_PER_BLOCK % BITS_PER_WORD == x % Files.BITS_PER_BLOCK % BITS_PER_WORD
  {}

  lemma InodeWritten(sb: Super, d: Disk, ino: nat, node: FileTree.Inode, e: Disk, i: nat, k: nat)
    requires Laid(sb, d) && ino < sb.ninodes && i < sb.ninodes && k < WORDS_PER_INODE && FitsWords(node)
    requires var t := BlockFor(sb, Node(ino, node)); t < |d| && e == d[t := Changed(Node(ino, node), d[t])]
    ensures InodeWord(sb, e, i, k) ==
            if i == ino then WordOfInode(node, k, InodeWord(sb, d, i, k)) else InodeWord(sb, d, i, k)
  {
    hide WordOfInode, FitsWords;
    InodeBlock(sb, ino);
    InodeBlock(sb, i);
    InodePlace(i % INODES_PER_BLOCK, k);
  }

  /** The blocks outside the part of the disk that block `t` is in keep their meaning. */
  lemma ElsewhereSame(sb: Super, d: Disk, t: nat, w: Block, f: Base)
    requires HoldsBase(sb, d, f) && t < |d|
    ensures t < sb.datastart ==>
      forall b :: sb.datastart <= b < sb.size ==> BlockIs(d[t := w], b, f.store[b])
    ensures t < sb.bmapstart || t >= sb.datastart ==>
      forall b :: 0 <= b < sb.size ==> f.bitmap[b] == BitAt(sb, d[t := w], b)
    ensures t < sb.inodestart || t >= sb.bmapstart ==>
      forall i :: 0 <= i < sb.ninodes ==> InodeIs(sb, d[t := w], i, f.inodes[i])
  {
    var e := d[t := w];
    if t < sb.datastart {
      forall b | sb.datastart <= b < sb.size
        ensures BlockIs(e, b, f.store[b])
      {
        assert BlockIs(d, b, f.store[b]);
      }
    }
    if t < sb.bmapstart || t >= sb.datastart {
      forall b | 0 <= b < sb.size
        ensures f.bitmap[b] == BitAt(sb, e, b)
      {
        BitBlock(sb, b);
        assert f.bitmap[b] == BitAt(sb, d, b);
      }
    }
    if t < sb.inodestart || t >= sb.bmapstart {
      forall i | 0 <= i < sb.ninodes
        ensures InodeIs(sb, e, i, f.inodes[i])
      {
        InodeBlock(sb, i);
        assert InodeIs(sb, d, i, f.inodes[i]);
      }
    }
  }

  /** A write changes the disk as it changes the state. */
  lemma WriteHolds(sb: Super, d: Disk, f: Base, w: Write)
    requires HoldsBase(sb, d, f) && Sound(sb, w)
    ensures BlockFor(sb, w) < |d|
    ensures HoldsBase(sb, d[BlockFor(sb, w) := Changed(w, d[BlockFor(sb, w)])], Apply(f, w))
  {
    hide Changed, BitAt, InodeIs, BlockIs;
    WriteGoesHome(sb, w);
    var t := BlockFor(sb, w);
    var e := d[t := Changed(w, d[t])];
    ElsewhereSame(sb, d, t, Changed(w, d[t]), f);
    match w
    case SetBit(b, on) =>
      forall x | 0 <= x < sb.size
        ensures Apply(f, w).bitmap[x] == BitAt(sb, e, x)
      {
        BitWritten(sb, d, b, on, e, x);
      }
    case Fill(b, data) =>
      forall x | sb.datastart <= x < sb.size
        ensures BlockIs(e, x, Apply(f, w).store[x])
      {
        DataWritten(d, b, data, e, x, f.store[x]);
      }
    case Node(ino, node) =>
      forall i | 0 <= i < sb.ninodes
        ensures InodeIs(sb, e, i, Apply(f, w).inodes[i])
      {
        NodeWritten(sb, d, ino, node, e, i, f.inodes[i]);
      }
  }

  /** A write leaves the rest alone. */
  lemma WriteKeepsRest(sb: Super, d: Disk, w: Write)
    requires Laid(sb, d) && Sound(sb, w)
    ensures BlockFor(sb, w) < |d|
    ensures SameRest(sb, d, d[BlockFor(sb, w) := Changed(w, d[BlockFor(sb, w)])])
  {
    hide Changed, BlockFor;
    WriteGoesHome(sb, w);
    var t := BlockFor(sb, w);
    var e := d[t := Changed(w, d[t])];
    forall i, k | 0 <= i < sb.ninodes && 0 <= k < 2
      ensures InodeWord(sb, e, i, k) == InodeWord(sb, d, i, k)
    {
      InodeBlock(sb, i);
      if w.Node? {
        InodeWritten(sb, d, w.ino, w.node, e, i, k);
      }
    }
  }

  lemma DataWritten(d: Disk, b: nat, data: ByteBlock, e: Disk, x: nat, was: ByteBlock)
    requires b < |d| && x < |d| && BlockIs(d, x, was) && e == d[b := Changed(Fill(b, data), d[b])]
    ensures BlockIs(e, x, if x == b then data else was)
  {}

  lemma NodeWritten(sb: Super, d: Disk, ino: nat, node: FileTree.Inode, e: Disk, i: nat, was: FileTree.Inode)
    requires Laid(sb, d) && ino < sb.ninodes && i < sb.ninodes && FitsWords(node) && InodeIs(sb, d, i, was)
    requires var t := BlockFor(sb, Node(ino, node)); t < |d| && e == d[t := Changed(Node(ino, node), d[t])]
    ensures InodeIs(sb, e, i, if i == ino then node else was)
  {
    hide InodeWord, Changed, BlockFor;
    forall k | 0 <= k < WORDS_PER_INODE
      ensures InodeWord(sb, e, i, k) ==
              if i == ino then WordOfInode(node, k, InodeWord(sb, d, i, k)) else InodeWord(sb, d, i, k)
    {
      InodeWritten(sb, d, ino, node, e, i, k);
    }
  }
}
