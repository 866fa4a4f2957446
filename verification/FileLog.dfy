/**
 Files on the log: the log_write calls of a write or a truncation, in their order, as one
 transaction. After a crash at any point the disk holds the files as they were before the
 operation or as they are after it.
 */
module FileLog {
  import opened Blocks
  import opened BufferCache
  import opened ByteBlocks
  import opened Common
  import opened DiskFormat
  import opened FileWrites
  import opened LogCases
  import opened LogManager
  import opened LogRounds
  import opened Pins
  import opened RedoLog
  import opened Transaction
  import FileTree
  import Files

  // ---- One operation, one transaction ----

  /**
   From disk `c`, and however recovery is interrupted, the files come back as in `f`, and all
   else as on disk `d`.
   */
  ghost predicate ComesBackWith(sb: Super, c: Disk, f: Files.Snap, d: Disk) {
    && HeaderOk(sb.l, c)
    && forall ks: seq<nat> ::
         var e := Recovered(sb.l, AfterCrashes(sb.l, c, ks));
         Stores(sb, e, f) && SameRest(sb, d, e)
  }

  lemma BackWith(sb: Super, c: Disk, v: Disk, f: Files.Snap, d: Disk)
    requires ComesBackAs(sb.l, c, v) && Stores(sb, v, f) && SameRest(sb, d, v)
    ensures ComesBackWith(sb, c, f, d)
  {
    hide Stores, Recovered, AfterCrashes, HeaderOk, SameRest;
    forall ks: seq<nat>
      ensures
        var e := Recovered(sb.l, AfterCrashes(sb.l, c, ks));
        Stores(sb, e, f) && SameRest(sb, d, e)
    {
      var e := Recovered(sb.l, AfterCrashes(sb.l, c, ks));
      HomeBack(sb.l, e, v);
      HomeDecides(sb, v, e, f);
      StoresLaid(sb, v, f);
      HomeKeepsRest(sb, v, e);
      RestTwice(sb, d, v, e);
    }
  }

  /** Where a disk comes back with all else as on `e`, it does as on one that `e` agrees with. */
  lemma BackSince(sb: Super, c: Disk, f: Files.Snap, d: Disk, e: Disk)
    requires ComesBackWith(sb, c, f, e) && SameRest(sb, d, e)
    ensures ComesBackWith(sb, c, f, d)
  {
    hide Stores, Recovered, AfterCrashes, HeaderOk, SameRest;
    forall ks: seq<nat>
      ensures SameRest(sb, d, Recovered(sb.l, AfterCrashes(sb.l, c, ks)))
    {
      RestTwice(sb, d, e, Recovered(sb.l, AfterCrashes(sb.l, c, ks)));
    }
  }

  lemma HomeBack(l: Layout, d: Disk, e: Disk)
    requires SameHome(l, d, e)
    ensures SameHome(l, e, d)
  {}

  /** With nothing logged, blocks read as they are on disk. */
  lemma CleanView(l: Layout, bufs: seq<Buf>, d: Disk)
    requires Accounts(bufs, d, Elems([])) && Unlocked(bufs) && Loggable(l, |d|, [])
    ensures SameHome(l, d, View(bufs, d))
  {
    AppliedIsView(l, bufs, d, []);
  }

  // ---- One operation ----

  /** The updates are those writes, one for one. */
  ghost predicate Carries(sb: Super, us: seq<Update>, ws: seq<Write>) {
    && |us| == |ws|
    && forall i :: 0 <= i < |us| ==>
         us[i].b == BlockFor(sb, ws[i]) && forall was :: us[i].change(was) == Changed(ws[i], was)
  }

  ghost predicate AllSound(sb: Super, ws: seq<Write>) {
    forall i :: 0 <= i < |ws| ==> Sound(sb, ws[i])
  }

  lemma UpdatesGoHome(sb: Super, us: seq<Update>, ws: seq<Write>)
    requires LaidOut(sb) && Carries(sb, us, ws) && AllSound(sb, ws)
    ensures forall i :: 0 <= i < |us| ==> us[i].b < sb.size && !InLog(sb.l, us[i].b)
  {
    forall i | 0 <= i < |us|
      ensures us[i].b < sb.size && !InLog(sb.l, us[i].b)
    {
      WriteGoesHome(sb, ws[i]);
    }
  }

  /** All the writes together change the disk as they change the state. */
  lemma {:induction false} ReplayHolds(sb: Super, v: Disk, f: Base, us: seq<Update>, ws: seq<Write>)
    requires HoldsBase(sb, v, f) && Carries(sb, us, ws) && AllSound(sb, ws)
    requires forall i :: 0 <= i < |us| ==> us[i].b < |v|
    ensures HoldsBase(sb, Updated(v, us), Replay(f, ws)) && SameRest(sb, v, Updated(v, us))
  {
    hide HoldsBase, Changed, BlockFor, SameRest, SameHome;
    BaseLaid(sb, v, f);
    if us != [] {
      var n := |us| - 1;
      ReplayHolds(sb, v, f, us[..n], ws[..n]);
      var e := Updated(v, us[..n]);
      BaseLaid(sb, e, Replay(f, ws[..n]));
      WriteHolds(sb, e, Replay(f, ws[..n]), ws[n]);
      WriteKeepsRest(sb, e, ws[n]);
      RestTwice(sb, v, e, Updated(v, us));
    }
  }

  lemma BaseLaid(sb: Super, d: Disk, f: Base)
    requires HoldsBase(sb, d, f)
    ensures Laid(sb, d) && SameRest(sb, d, d)
  {}

  /**
   One transaction made of the log_write calls of one operation, which take the files from
   state `f0` to state `f`: a crash at any point of it, followed by any interrupted
   recoveries, leaves the files of the one or of the other. If the writes go to fewer
   blocks than there are buffers and log blocks, and an operation has begun, nothing panics.
   */
  method Save(log: Log, sb: Super, ws: seq<Write>, ghost f0: Files.Snap, ghost f: Files.Snap) returns (ok: bool)
    requires log.Valid() && log.blocks == [] && Unlocked(log.cache.bufs) && log.l == sb.l
    requires Stores(sb, log.cache.disk, f0) && AllSound(sb, ws)
    requires f.dataStart == f0.dataStart && Replay(BaseOf(f0), ws) == BaseOf(f)
    modifies log, log.cache
    ensures old(log.cache.history) <= log.cache.history
    ensures forall j :: |old(log.cache.history)| <= j < |log.cache.history| ==>
      || ComesBackWith(sb, log.cache.history[j], f0, old(log.cache.disk))
      || ComesBackWith(sb, log.cache.history[j], f, old(log.cache.disk))
    ensures !ok ==> forall j :: |old(log.cache.history)| <= j < |log.cache.history| ==>
      ComesBackWith(sb, log.cache.history[j], f0, old(log.cache.disk))
    ensures |WrittenBlocks(sb, ws)| < NBUF && |WrittenBlocks(sb, ws)| + 1 < sb.l.size && old(log.outstanding) >= 1 ==>
      ok
    ensures ok ==> Stores(sb, log.cache.disk, f) && SameRest(sb, old(log.cache.disk), log.cache.disk)
    ensures ok ==>
      log.Valid() && log.blocks == [] && Unlocked(log.cache.bufs) && log.outstanding == old(log.outstanding)
  {
    hide HoldsBase, SameHome, Accounts, Unlocked, Loggable, HeaderOk, ComesBackAs, ComesBackWith, Updated, View,
      Committed, Carries, AllSound, Targets, WrittenBlocks, Replay, SameRest;
    ghost var d, v := log.cache.disk, View(log.cache.bufs, log.cache.disk);
    CleanView(log.l, log.cache.bufs, d);
    HomeDecides(sb, d, v, f0);
    var us := UpdatesFor(sb, ws);
    StoresLaid(sb, d, f0);
    BaseLaid(sb, d, BaseOf(f0));
    HomeKeepsRest(sb, d, v);
    UpdatesGoHome(sb, us, ws);
    SameTargets(sb, us, ws);
    ghost var e := Updated(v, us);
    ReplayHolds(sb, v, BaseOf(f0), us, ws);
    RestTwice(sb, d, v, e);
    ok := Perform(log, us);
    forall j | |old(log.cache.history)| <= j < |log.cache.history|
      ensures ComesBackWith(sb, log.cache.history[j], f0, d) || (ok && ComesBackWith(sb, log.cache.history[j], f, d))
    {
      if ComesBackAs(log.l, log.cache.history[j], d) {
        BackWith(sb, log.cache.history[j], d, f0, d);
      } else {
        BackWith(sb, log.cache.history[j], e, f, d);
      }
    }
    if ok {
      HomeBack(sb.l, log.cache.disk, e);
      HomeDecides(sb, e, log.cache.disk, f);
      BaseLaid(sb, e, BaseOf(f));
      HomeKeepsRest(sb, e, log.cache.disk);
      RestTwice(sb, d, e, log.cache.disk);
    }
  }

  lemma StoresLaid(sb: Super, d: Disk, f: Files.Snap)
    requires Stores(sb, d, f)
    ensures LaidOut(sb) && |d| == sb.size
    ensures |f.store| == |f.bitmap| == sb.size && |f.inodes| == sb.ninodes && f.dataStart == sb.datastart
  {}

  lemma StoresSelf(sb: Super, d: Disk, f: Files.Snap)
    requires Stores(sb, d, f)
    ensures SameRest(sb, d, d)
  {}

  lemma GoodSizes(f: Files.Snap)
    requires Files.Good(f)
    ensures |f.bitmap| == |f.store|
  {}

  method UpdatesFor(sb: Super, ws: seq<Write>) returns (us: seq<Update>)
    ensures Carries(sb, us, ws)
  {
    us := [];
    var i := 0;
    while i < |ws|
      invariant 0 <= i <= |ws| && Carries(sb, us, ws[..i])
    {
      var w := ws[i];
      us := us + [Update(BlockFor(sb, w), was => Changed(w, was))];
      i := i + 1;
    }
    assert ws[..i] == ws;
  }

  // ---- How many blocks ----

  /** The different blocks the writes go to. */
  ghost function WrittenBlocks(sb: Super, ws: seq<Write>): set<nat> {
    set i | 0 <= i < |ws| :: BlockFor(sb, ws[i])
  }

  lemma SameTargets(sb: Super, us: seq<Update>, ws: seq<Write>)
    requires Carries(sb, us, ws)
    ensures Targets(us) == WrittenBlocks(sb, ws)
  {
    forall b
      ensures b in Targets(us) <==> b in WrittenBlocks(sb, ws)
    {
      if b in Targets(us) {
        var i :| 0 <= i < |us| && us[i].b == b;
        assert BlockFor(sb, ws[i]) == b;
      }
      if b in WrittenBlocks(sb, ws) {
        var i :| 0 <= i < |ws| && BlockFor(sb, ws[i]) == b;
        assert us[i].b == b;
      }
    }
  }

  /** The number of bitmap blocks. */
  function BitmapBlocks(sb: Super): nat {
    sb.size / Files.BITS_PER_BLOCK + 1
  }

  ghost function BlocksFrom(a: nat, n: nat): (r: set<nat>)
    ensures |r| <= n && forall i :: a <= i < a + n ==> i in r
  {
    if n == 0 then {} else BlocksFrom(a, n - 1) + {a + n - 1}
  }

  /** The blocks that slots of an inode name. */
  ghost function SlotBlocks(f: Files.Snap, ino: nat, slots: set<FileTree.Slot>): set<nat>
    requires FileTree.Shaped(f.inodes) && ino < |f.inodes| && forall s :: s in slots ==> FileTree.IsSlot(s)
  {
    set s | s in slots :: Files.BlockOf(f, ino, s)
  }

  lemma {:induction false} SlotBlocksFew(f: Files.Snap, ino: nat, slots: set<FileTree.Slot>)
    requires FileTree.Shaped(f.inodes) && ino < |f.inodes| && forall s :: s in slots ==> FileTree.IsSlot(s)
    ensures |SlotBlocks(f, ino, slots)| <= |slots|
  {
    if slots != {} {
      var s :| s in slots;
      SlotBlocksFew(f, ino, slots - {s});
      assert SlotBlocks(f, ino, slots) == SlotBlocks(f, ino, slots - {s}) + {Files.BlockOf(f, ino, s)};
    } else {
      assert SlotBlocks(f, ino, slots) == {};
    }
  }

  /** The bitmap blocks among them. */
  ghost function BitBlocks(sb: Super, ws: seq<Write>): set<nat> {
    set i | 0 <= i < |ws| && ws[i].SetBit? :: BlockFor(sb, ws[i])
  }

  lemma BitBlocksFew(sb: Super, ws: seq<Write>)
    requires forall i :: 0 <= i < |ws| && ws[i].SetBit? ==> ws[i].b < sb.size
    ensures |BitBlocks(sb, ws)| <= BitmapBlocks(sb)
  {
    forall b | b in BitBlocks(sb, ws)
      ensures b in BlocksFrom(sb.bmapstart, BitmapBlocks(sb))
    {
      var i :| 0 <= i < |ws| && ws[i].SetBit? && BlockFor(sb, ws[i]) == b;
      BitBlock(sb, ws[i].b);
    }
    SubsetSize(BitBlocks(sb, ws), BlocksFrom(sb.bmapstart, BitmapBlocks(sb)));
  }

  /**
   What an operation on some slots of one inode writes: their blocks, the bitmap blocks of
   those it allocates or frees, and the inode's block.
   */
  lemma OperationBlocks(sb: Super, f: Files.Snap, ino: nat, slots: set<FileTree.Slot>, ws: seq<Write>)
    requires Files.Good(f) && ino < |f.inodes| && Operation(ws, f.owner, ino, slots, sb.size, f.inodes[ino])
    requires forall s :: s in slots ==> FileTree.IsSlot(s)
    ensures |WrittenBlocks(sb, ws)| <= |slots| + |BitBlocks(sb, ws)| + 1
    ensures |BitBlocks(sb, ws)| <= BitmapBlocks(sb)
  {
    hide FileTree.Tree;
    Files.ShapedGood(f);
    var node := sb.inodestart + ino / INODES_PER_BLOCK;
    var all := SlotBlocks(f, ino, slots) + BitBlocks(sb, ws) + {node};
    forall i | 0 <= i < |ws|
      ensures BlockFor(sb, ws[i]) in all && (ws[i].SetBit? ==> ws[i].b < sb.size)
    {
      if i < |ws| - 1 {
        assert WriteConfined(ws[..|ws| - 1][i], f.owner, ino, slots, sb.size);
        WrittenBlock(sb, f, ino, slots, ws[i]);
      }
    }
    BitBlocksFew(sb, ws);
    SlotBlocksFew(f, ino, slots);
    SubsetSize(WrittenBlocks(sb, ws), all);
  }

  lemma WrittenBlock(sb: Super, f: Files.Snap, ino: nat, slots: set<FileTree.Slot>, w: Write)
    requires Files.Good(f) && FileTree.Shaped(f.inodes) && ino < |f.inodes|
    requires WriteConfined(w, f.owner, ino, slots, sb.size) && forall s :: s in slots ==> FileTree.IsSlot(s)
    ensures w.SetBit? || BlockFor(sb, w) in SlotBlocks(f, ino, slots)
  {
    if w.Fill? {
      assert w.b == Files.BlockOf(f, ino, f.owner[w.b].s);
    }
  }

  /** How many blocks a write of `n` bytes at `off` may log: data and index blocks, bitmap blocks, the inode's block. */
  function WriteBound(sb: Super, off: nat, n: nat): nat {
    PathsBound(BlocksOf(off, n)) + BitmapBlocks(sb) + 1
  }

  /**
   A part of filewrite, three blocks long, stays within what begin_op reserves if the blocks
   it allocates are in at most two bitmap blocks.
   */
  lemma WithinReservation(sb: Super, f: Files.Snap, ino: nat, off: nat, n: nat, ws: seq<Write>)
    requires Files.Good(f) && ino < |f.inodes| && n <= 3 * BSIZE && off / BSIZE + BlocksOf(off, n) <= FileTree.MAXFILE
    requires Operation(ws, f.owner, ino, Paths(off / BSIZE, BlocksOf(off, n)), sb.size, f.inodes[ino])
    requires |BitBlocks(sb, ws)| <= 2
    ensures |WrittenBlocks(sb, ws)| <= MAXOPBLOCKS
  {
    hide FileTree.Tree, Operation, BitBlocks, Paths;
    var lo, k := off / BSIZE, BlocksOf(off, n);
    PathsFew(lo, k);
    OperationBlocks(sb, f, ino, Paths(lo, k), ws);
  }

  /** The writes of an operation are sound, and go to few blocks. */
  lemma OperationSound(sb: Super, f: Files.Snap, ino: nat, slots: set<FileTree.Slot>, ws: seq<Write>)
    requires Files.Valid(f) && ino < |f.inodes| == sb.ninodes && |f.store| == sb.size && f.dataStart == sb.datastart
    requires Operation(ws, f.owner, ino, slots, sb.size, f.inodes[ino]) && forall s :: s in slots ==> FileTree.IsSlot(s)
    ensures AllSound(sb, ws) && |WrittenBlocks(sb, ws)| <= |slots| + BitmapBlocks(sb) + 1
  {
    ValidFits(f);
    forall i | 0 <= i < |ws|
      ensures Sound(sb, ws[i])
    {
      if i < |ws| - 1 {
        assert WriteConfined(ws[..|ws| - 1][i], f.owner, ino, slots, sb.size);
      }
    }
    OperationBlocks(sb, f, ino, slots, ws);
  }

  /** writei as a transaction: after any crash the file has its old contents or has all of `src` in place. */
  method WriteFile(log: Log, fs: Files.FileSystem, sb: Super, ino: nat, off: nat, src: seq<Byte>)
    returns (r: int, ok: bool)
    requires log.Valid() && log.blocks == [] && Unlocked(log.cache.bufs) && log.l == sb.l
    requires Files.Valid(fs.State()) && Stores(sb, log.cache.disk, fs.State())
    requires ino < |fs.inodes| && off < UINT_LIMIT && |src| < UINT_LIMIT
    modifies log, log.cache, fs
    ensures old(log.cache.history) <= log.cache.history
    ensures forall j :: |old(log.cache.history)| <= j < |log.cache.history| ==>
      || ComesBackWith(sb, log.cache.history[j], old(fs.State()), old(log.cache.disk))
      || ComesBackWith(sb, log.cache.history[j], fs.State(), old(log.cache.disk))
    ensures !ok ==> forall j :: |old(log.cache.history)| <= j < |log.cache.history| ==>
      ComesBackWith(sb, log.cache.history[j], old(fs.State()), old(log.cache.disk))
    ensures ok ==> Files.Valid(fs.State()) && Stores(sb, log.cache.disk, fs.State()) && |fs.inodes| == |old(fs.inodes)|
    ensures ok ==> SameRest(sb, old(log.cache.disk), log.cache.disk)
    ensures ok ==>
      log.Valid() && log.blocks == [] && Unlocked(log.cache.bufs) && log.outstanding == old(log.outstanding)
    ensures !Files.CanWrite(old(fs.inodes[ino].size), off, |src|) ==> ok && r == -1 && fs.State() == old(fs.State())
    ensures ok && Files.CanWrite(old(fs.inodes[ino].size), off, |src|) ==>
      && r == |src|
      && Files.Content(fs.State(), ino) == Files.Overwrite(old(Files.Content(fs.State(), ino)), off, src)
      && forall i :: 0 <= i < |fs.inodes| && i != ino ==>
           Files.Content(fs.State(), i) == old(Files.Content(fs.State(), i))
    ensures ok ==> Clear(fs.bitmap) + 3 * BlocksOf(off, |src|) >= Clear(old(fs.bitmap))
    ensures Clear(old(fs.bitmap)) >= 3 * BlocksOf(off, |src|) && old(log.outstanding) >= 1 ==>
      WriteBound(sb, off, |src|) < NBUF && WriteBound(sb, off, |src|) + 1 < sb.l.size ==> ok
  {
    hide HoldsBase, Accounts, Unlocked, Loggable, HeaderOk, ComesBackWith, Committed, FileTree.Tree, Files.NoHoles,
      Replay, Operation, Paths, WrittenBlocks, Clear, AllSound, SameRest;
    ghost var f0 := fs.State();
    StoresLaid(sb, log.cache.disk, f0);
    BaseLaid(sb, log.cache.disk, BaseOf(f0));
    r, ok := fs.Writei(ino, off, src);
    if !ok {
      return;
    }
    if r != -1 {
      BlocksFit(off, |src|);
      PathsFew(off / BSIZE, BlocksOf(off, |src|));
      GoodSizes(fs.State());
      OperationSound(sb, fs.State(), ino, Paths(off / BSIZE, BlocksOf(off, |src|)), fs.writes);
      ok := Save(log, sb, fs.writes, f0, fs.State());
    }
  }

  // ---- A write in parts ----

  const PART := 3072

  /** How much of `n` bytes the first `k` parts are. */
  function PartsOf(n: nat, k: nat): nat {
    if k * PART < n then k * PART else n
  }

  /** The files of `f` are those of `f0` with the first `m` bytes of `src` written at `off`. */
  ghost predicate WroteFirst(f0: Files.Snap, f: Files.Snap, ino: nat, off: nat, src: seq<Byte>, m: nat) {
    && Files.Valid(f0) && Files.Valid(f) && ino < |f0.inodes| == |f.inodes| && m <= |src|
    && (m == 0 || off <= f0.inodes[ino].size)
    && Files.Content(f, ino) == (if m == 0 then Files.Content(f0, ino)
                                 else Files.Overwrite(Files.Content(f0, ino), off, src[..m]))
    && forall i :: 0 <= i < |f.inodes| && i != ino ==> Files.Content(f, i) == Files.Content(f0, i)
  }

  /** A part that follows another continues it. */
  lemma OverwriteOn(c: seq<Byte>, off: nat, src: seq<Byte>, m: nat, n: nat)
    requires off <= |c| && m <= n <= |src|
    ensures off + m <= |Files.Overwrite(c, off, src[..m])|
    ensures Files.Overwrite(Files.Overwrite(c, off, src[..m]), off + m, src[m..n]) == Files.Overwrite(c, off, src[..n])
  {}

  /** The next part, if it can be written, leaves one part more written. */
  lemma NextPart(f0: Files.Snap, f: Files.Snap, g: Files.Snap, ino: nat, off: nat, src: seq<Byte>, m: nat, n: nat)
    requires WroteFirst(f0, f, ino, off, src, m) && m < n <= |src|
    requires Files.Valid(g) && |g.inodes| == |f.inodes| && Files.CanWrite(f.inodes[ino].size, off + m, n - m)
    requires Files.Content(g, ino) == Files.Overwrite(Files.Content(f, ino), off + m, src[m..n])
    requires forall i :: 0 <= i < |g.inodes| && i != ino ==> Files.Content(g, i) == Files.Content(f, i)
    ensures WroteFirst(f0, g, ino, off, src, n)
  {
    hide Files.Overwrite, FileTree.Owned, FileTree.Exact, FileTree.Marked;
    var c := Files.Content(f0, ino);
    if m > 0 {
      OverwriteOn(c, off, src, m, n);
    }
  }

  /** Parts follow each other, and the last one is the rest. */
  lemma PartsNext(n: nat, k: nat)
    requires PartsOf(n, k) < n
    ensures PartsOf(n, k) == k * PART
    ensures PartsOf(n, k + 1) == if n - k * PART > PART then k * PART + PART else n
  {}

  /**
   A part is half the blocks of an operation that are left after inode, index block and two of slop; it
   falls on at most four blocks, so it can be afforded where four are.
   */
  lemma PartIsSmall(sb: Super, off: nat, n: nat)
    requires n <= PART
    ensures PART == (MAXOPBLOCKS - 1 - 1 - 2) / 2 * BSIZE
    ensures BlocksOf(off, n) <= 4 && WriteBound(sb, off, n) <= 8 + BitmapBlocks(sb)
  {}

  /** A part can be written exactly if the write as a whole could, or an earlier end would have to be passed. */
  lemma PartCanWrite(f0: Files.Snap, f: Files.Snap, ino: nat, off: nat, src: seq<Byte>, m: nat, n: nat)
    requires WroteFirst(f0, f, ino, off, src, m) && m < n <= |src| < UINT_LIMIT
    ensures Files.CanWrite(f.inodes[ino].size, off + m, n - m) <==>
      off <= f0.inodes[ino].size && off + n <= Files.MAXBYTES
  {
    hide FileTree.Owned, FileTree.Exact, FileTree.Marked;
    assert |Files.Content(f, ino)| == f.inodes[ino].size && |Files.Content(f0, ino)| == f0.inodes[ino].size;
  }

  /**
   filewrite: the write is done in parts, each a transaction of its own. After any crash
   the file has, of the bytes to be written, the first so many parts and nothing of the
   rest. All of them are written exactly if a single write could have been.
   */
  method FileWrite(log: Log, fs: Files.FileSystem, sb: Super, ino: nat, off: nat, src: seq<Byte>)
    returns (r: int, ok: bool, ghost states: seq<Files.Snap>)
    requires log.Valid() && log.blocks == [] && Unlocked(log.cache.bufs) && log.l == sb.l
    requires Files.Valid(fs.State()) && Stores(sb, log.cache.disk, fs.State())
    requires ino < |fs.inodes| && off < UINT_LIMIT && |src| < UINT_LIMIT
    modifies log, log.cache, fs
    ensures old(log.cache.history) <= log.cache.history
    ensures forall k :: 0 <= k < |states| ==>
      WroteFirst(old(fs.State()), states[k], ino, off, src, PartsOf(|src|, k))
    ensures forall j :: |old(log.cache.history)| <= j < |log.cache.history| ==>
      exists k :: 0 <= k < |states| && ComesBackWith(sb, log.cache.history[j], states[k], old(log.cache.disk))
    ensures ok ==> r == if src == [] || Files.CanWrite(old(fs.inodes[ino].size), off, |src|) then |src| else -1
    ensures ok ==> |states| >= 1 && fs.State() == states[|states| - 1] && Stores(sb, log.cache.disk, fs.State())
    ensures ok ==> SameRest(sb, old(log.cache.disk), log.cache.disk)
    ensures ok && r == |src| ==> WroteFirst(old(fs.State()), fs.State(), ino, off, src, |src|)
    ensures ok ==>
      log.Valid() && log.blocks == [] && Unlocked(log.cache.bufs) && log.outstanding == old(log.outstanding)
    ensures Clear(old(fs.bitmap)) >= 12 * (|src| / PART + 1) && old(log.outstanding) >= 1 ==>
      8 + BitmapBlocks(sb) < NBUF && 9 + BitmapBlocks(sb) < sb.l.size ==> ok
  {
    hide Stores, Accounts, Unlocked, Loggable, HeaderOk, ComesBackWith, Committed, WroteFirst, Clear, Files.Valid,
      Files.Content, Files.Overwrite, BlocksOf, WriteBound, PartsOf,
      SameRest;
    ghost var f0, d, k := fs.State(), log.cache.disk, 0;
    StoresSelf(sb, d, f0);
    NothingYet(f0, ino, off, src);
    states := [f0];
    var i := 0;
    while i < |src|
      invariant 0 <= i <= |src| && i == PartsOf(|src|, k) && |states| == k + 1 && k <= |src| / PART + 1
      invariant log.Valid() && log.blocks == [] && Unlocked(log.cache.bufs) && log.outstanding == old(log.outstanding)
      invariant Files.Valid(fs.State()) && Stores(sb, log.cache.disk, fs.State()) && fs.State() == states[k]
      invariant |fs.inodes| == |old(fs.inodes)| && SameRest(sb, d, log.cache.disk)
      invariant old(log.cache.history) <= log.cache.history
      invariant forall t :: 0 <= t <= k ==> WroteFirst(f0, states[t], ino, off, src, PartsOf(|src|, t))
      invariant forall j :: |old(log.cache.history)| <= j < |log.cache.history| ==>
        exists t :: 0 <= t <= k && ComesBackWith(sb, log.cache.history[j], states[t], d)
      invariant i > 0 ==> off + i <= Files.MAXBYTES && off <= old(fs.inodes[ino].size)
      invariant Clear(fs.bitmap) + 12 * k >= Clear(old(fs.bitmap))
    {
      PartsNext(|src|, k);
      var n1 := if |src| - i > PART then PART else |src| - i;
      PartCanWrite(f0, states[k], ino, off, src, i, i + n1);
      PartIsSmall(sb, off + i, n1);
      ghost var f, h, e := fs.State(), log.cache.history, log.cache.disk;
      r, ok := WriteFile(log, fs, sb, ino, off + i, src[i..i + n1]);
      forall j, g | |h| <= j < |log.cache.history| && ComesBackWith(sb, log.cache.history[j], g, e)
        ensures ComesBackWith(sb, log.cache.history[j], g, d)
      {
        BackSince(sb, log.cache.history[j], g, d, e);
      }
      if !ok {
        return;
      }
      RestTwice(sb, d, e, log.cache.disk);
      if r < 0 {
        return -1, true, states;
      }
      NextPart(f0, f, fs.State(), ino, off, src, i, i + n1);
      states := states + [fs.State()];
      i, k := i + n1, k + 1;
    }
    return |src|, true, states;
  }

  lemma NothingYet(f0: Files.Snap, ino: nat, off: nat, src: seq<Byte>)
    requires Files.Valid(f0) && ino < |f0.inodes|
    ensures PartsOf(|src|, 0) == 0 && WroteFirst(f0, f0, ino, off, src, 0)
  {}

  /** itrunc as a transaction: after any crash the file has its old contents or none. */
  method TruncateFile(log: Log, fs: Files.FileSystem, sb: Super, ino: nat) returns (ok: bool)
    requires log.Valid() && log.blocks == [] && Unlocked(log.cache.bufs) && log.l == sb.l
    requires Files.Valid(fs.State()) && Stores(sb, log.cache.disk, fs.State()) && ino < |fs.inodes|
    modifies log, log.cache, fs
    ensures old(log.cache.history) <= log.cache.history
    ensures forall j :: |old(log.cache.history)| <= j < |log.cache.history| ==>
      || ComesBackWith(sb, log.cache.history[j], old(fs.State()), old(log.cache.disk))
      || ComesBackWith(sb, log.cache.history[j], fs.State(), old(log.cache.disk))
    ensures BitmapBlocks(sb) + 1 < NBUF && BitmapBlocks(sb) + 2 < sb.l.size && old(log.outstanding) >= 1 ==> ok
    ensures Files.Valid(fs.State()) && |fs.inodes| == |old(fs.inodes)| && Files.Content(fs.State(), ino) == []
    ensures forall i :: 0 <= i < |fs.inodes| && i != ino ==>
      Files.Content(fs.State(), i) == old(Files.Content(fs.State(), i))
    ensures ok ==> Stores(sb, log.cache.disk, fs.State()) && SameRest(sb, old(log.cache.disk), log.cache.disk)
    ensures ok ==>
      log.Valid() && log.blocks == [] && Unlocked(log.cache.bufs) && log.outstanding == old(log.outstanding)
  {
    hide HoldsBase, Accounts, Unlocked, Loggable, HeaderOk, ComesBackWith, Committed, FileTree.Tree, Files.NoHoles,
      Replay, Operation, WrittenBlocks, AllSound, SameRest;
    ghost var f0 := fs.State();
    StoresLaid(sb, log.cache.disk, f0);
    fs.Itrunc(ino);
    GoodSizes(fs.State());
    OperationSound(sb, fs.State(), ino, {}, fs.writes);
    ok := Save(log, sb, fs.writes, f0, fs.State());
  }

  /** Whoever reads the files off the disk after the crashes finds the contents it came back with. */
  lemma ReadAfterCrash(sb: Super, c: Disk, d: Disk, f: Files.Snap, ks: seq<nat>, g: Files.Snap, ino: nat)
    requires ComesBackWith(sb, c, f, d) && Stores(sb, Recovered(sb.l, AfterCrashes(sb.l, c, ks)), g)
    requires Files.Valid(f) && Files.Valid(g) && ino < sb.ninodes
    ensures ino < |f.inodes| && ino < |g.inodes| && Files.Content(g, ino) == Files.Content(f, ino)
    ensures SameRest(sb, d, Recovered(sb.l, AfterCrashes(sb.l, c, ks)))
  {
    DiskDecides(sb, Recovered(sb.l, AfterCrashes(sb.l, c, ks)), g, f, ino);
  }

  // ---- A fresh disk ----

  /** mkfs and the first boot: an empty file system, ready for transactions. */
  method Format(sb: Super) returns (log: Log, fs: Files.FileSystem)
    requires LaidOut(sb)
    ensures log.Valid() && log.blocks == [] && Unlocked(log.cache.bufs) && log.l == sb.l
    ensures Files.Valid(fs.State()) && Stores(sb, log.cache.disk, fs.State()) && |fs.inodes| == sb.ninodes
    ensures forall i :: 0 <= i < sb.ninodes ==> Files.Content(fs.State(), i) == []
    ensures fresh(log) && fresh(log.cache) && fresh(fs)
  {
    hide Stores, Accounts, Unlocked, HeaderOk, Committed, FileTree.Tree, Files.NoHoles, IsEncoded, Encoded, FitsWords,
      AtBoot, NoneCached, Stage, SameHome;
    fs := new Files.FileSystem(sb.datastart, sb.size, sb.ninodes);
    var zero: Block := ZERO_BLOCK;
    var d0: Disk := seq(sb.size, _ => zero);
    ValidFits(fs.State());
    var store, bitmap, inodes := fs.store, fs.bitmap, fs.inodes;
    var d: Disk := seq(sb.size, b requires 0 <= b < sb.size => Encoded(sb, store, bitmap, inodes, b, zero));
    FreshDisk(sb, d0, fs.State(), d, zero);
    var cache := new Cache(d);
    BootPool(cache.bufs, d, {});
    log := new Log(cache, sb.l);
    var ok;
    ghost var k;
    ok, k := log.RecoverFromLog();
    StageUnlocked(cache.bufs, cache.disk, Elems([]));
    RecoverNothing(sb.l, d);
    HomeDecides(sb, d, cache.disk, fs.State());
  }

  lemma FreshDisk(sb: Super, d0: Disk, f: Files.Snap, d: Disk, zero: Block)
    requires Storable(sb, d0, f) && zero[0] == 0 && |d| == |d0|
    requires forall b :: 0 <= b < |d0| ==> d0[b] == zero
    requires forall b :: 0 <= b < |d0| ==> d[b] == Encoded(sb, f.store, f.bitmap, f.inodes, b, zero)
    ensures Stores(sb, d, f) && HeaderOk(sb.l, d) && Committed(sb.l, d) == []
  {
    LogStays(sb, d0, f, sb.l.start);
    ZeroHeader(sb.l, d);
    EncodedStores(sb, d0, f, d);
  }

  lemma RecoverNothing(l: Layout, d: Disk)
    requires HeaderOk(l, d) && Committed(l, d) == []
    ensures SameHome(l, d, Recovered(l, d))
  {}
}
