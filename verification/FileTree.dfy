/**
 Which disk block serves which purpose: the tree of direct, single- and
 double-indirect blocks under each inode, and the ownership of blocks.

 A slot is a place that can name a block: an inode's address or an entry of an
 index block. The ghost map `owner` sends every block in use to the one slot that
 names it, so two slots never share a block.
 */
module FileTree {
  import opened ByteBlocks
  import opened Common

  const NDIRECT := 11
  const NINDIRECT := 256
  const NDINDIRECT := 65536
  const MAXFILE := 65803  // NDIRECT + NINDIRECT + NDINDIRECT

  datatype Slot =
    | Direct(i: nat)
    | Single                     // addrs[NDIRECT]: the indirect block
    | SingleEntry(j: nat)        // a data block named by it
    | Double                     // addrs[NDIRECT + 1]: the double-indirect block
    | DoubleEntry(i: nat)        // an index block named by it
    | Leaf(i: nat, j: nat)       // a data block named by that

  predicate IsSlot(s: Slot) {
    match s
    case Direct(i) => i < NDIRECT
    case SingleEntry(j) => j < NINDIRECT
    case DoubleEntry(i) => i < NINDIRECT
    case Leaf(i, j) => i < NINDIRECT && j < NINDIRECT
    case _ => true
  }

  /** The slot is for file data, not for an index block. */
  predicate IsData(s: Slot) {
    s.Direct? || s.SingleEntry? || s.Leaf?
  }

  datatype Inode = Inode(size: nat, addrs: seq<nat>)

  type Store = seq<ByteBlock>

  /** The block number an entry of index block `b` holds; an absent index block has no entries. */
  function Entry(store: Store, b: nat, i: nat): nat
    requires i < WORDS
  {
    if 0 < b < |store| then GetWord(store[b], i) else 0
  }

  /** The block a slot names, 0 if none. */
  function At(store: Store, addrs: seq<nat>, s: Slot): nat
    requires |addrs| == NDIRECT + 2 && IsSlot(s)
  {
    match s
    case Direct(i) => addrs[i]
    case Single => addrs[NDIRECT]
    case SingleEntry(j) => Entry(store, addrs[NDIRECT], j)
    case Double => addrs[NDIRECT + 1]
    case DoubleEntry(i) => Entry(store, addrs[NDIRECT + 1], i)
    case Leaf(i, j) => Entry(store, Entry(store, addrs[NDIRECT + 1], i), j)
  }

  /** The slot of the bn-th data block of a file. */
  function SlotOf(bn: nat): (s: Slot)
    requires bn < MAXFILE
    ensures IsSlot(s) && IsData(s)
  {
    if bn < NDIRECT then Direct(bn)
    else if bn - NDIRECT < NINDIRECT then SingleEntry(bn - NDIRECT)
    else
      var k := bn - NDIRECT - NINDIRECT;
      Leaf(k / NINDIRECT, k % NINDIRECT)
  }

  /**
   Where bmap finds the bn-th block of a file: the first eleven in the inode itself, the next 256 in the
   block of the twelfth address, the others in the blocks that the block of the thirteenth lists.
   */
  lemma WhereBlockIs(store: Store, addrs: seq<nat>, bn: nat)
    requires |addrs| == 13 && bn < 11 + 256 + 256 * 256
    ensures MAXFILE == 11 + 256 + 256 * 256
    ensures bn < 11 ==> At(store, addrs, SlotOf(bn)) == addrs[bn]
    ensures 11 <= bn < 267 ==>
      At(store, addrs, SlotOf(bn)) == if 0 < addrs[11] < |store| then GetWord(store[addrs[11]], bn - 11) else 0
    ensures bn >= 267 ==>
      var i, j := (bn - 267) / 256, (bn - 267) % 256;
      var index := if 0 < addrs[12] < |store| then GetWord(store[addrs[12]], i) else 0;
      At(store, addrs, SlotOf(bn)) == if 0 < index < |store| then GetWord(store[index], j) else 0
  {
    hide GetWord;
  }

  lemma SlotOfInjective(a: nat, b: nat)
    requires a < MAXFILE && b < MAXFILE && SlotOf(a) == SlotOf(b)
    ensures a == b
  {}

  predicate HasParent(s: Slot) {
    s.SingleEntry? || s.DoubleEntry? || s.Leaf?
  }

  function Parent(s: Slot): Slot
    requires HasParent(s)
  {
    match s
    case SingleEntry(_) => Single
    case DoubleEntry(_) => Double
    case Leaf(i, _) => DoubleEntry(i)
  }

  function IndexIn(s: Slot): nat
    requires HasParent(s)
  {
    match s
    case SingleEntry(j) => j
    case DoubleEntry(i) => i
    case Leaf(_, j) => j
  }

  function AddrIndex(s: Slot): nat
    requires !HasParent(s)
  {
    match s
    case Direct(i) => i
    case Single => NDIRECT
    case Double => NDIRECT + 1
  }

  // ---- Ownership ----

  datatype Place = Place(ino: nat, s: Slot)

  function Named(store: Store, inodes: seq<Inode>, ino: nat, s: Slot): nat
    requires ino < |inodes| && |inodes[ino].addrs| == NDIRECT + 2 && IsSlot(s)
  {
    At(store, inodes[ino].addrs, s)
  }

  ghost predicate Shaped(inodes: seq<Inode>) {
    forall ino :: 0 <= ino < |inodes| ==> |inodes[ino].addrs| == NDIRECT + 2
  }

  /** Every block a slot names is owned by that slot ... */
  ghost predicate Owned(store: Store, inodes: seq<Inode>, owner: map<nat, Place>)
    requires Shaped(inodes)
  {
    forall ino, s {:trigger Named(store, inodes, ino, s)} :: 0 <= ino < |inodes| && IsSlot(s) ==>
      var b := Named(store, inodes, ino, s);
      b != 0 ==> b in owner && owner[b] == Place(ino, s)
  }

  /** ... and every owned block is named by its owner. */
  ghost predicate Exact(store: Store, inodes: seq<Inode>, owner: map<nat, Place>)
    requires Shaped(inodes)
  {
    forall b :: b in owner ==>
      && 0 < b < |store|
      && owner[b].ino < |inodes| && IsSlot(owner[b].s)
      && Named(store, inodes, owner[b].ino, owner[b].s) == b
  }

  /** The bitmap marks the meta blocks and the owned blocks, and nothing else. */
  ghost predicate Marked(bitmap: seq<bool>, owner: map<nat, Place>, dataStart: nat) {
    forall b :: 0 <= b < |bitmap| ==> (bitmap[b] <==> b < dataStart || b in owner)
  }

  ghost predicate Tree(store: Store, bitmap: seq<bool>, inodes: seq<Inode>, owner: map<nat, Place>, dataStart: nat) {
    && |bitmap| == |store| <= UINT_LIMIT
    && 1 <= dataStart
    && (forall b :: b in owner ==> b >= dataStart)
    && Shaped(inodes)
    && Owned(store, inodes, owner)
    && Exact(store, inodes, owner)
    && Marked(bitmap, owner, dataStart)
  }

  /** No block has two owners. */
  lemma DistinctBlocks(store: Store, inodes: seq<Inode>, owner: map<nat, Place>, i1: nat, s1: Slot, i2: nat, s2: Slot)
    requires Shaped(inodes) && Owned(store, inodes, owner)
    requires i1 < |inodes| && i2 < |inodes| && IsSlot(s1) && IsSlot(s2)
    requires Named(store, inodes, i1, s1) == Named(store, inodes, i2, s2) != 0
    ensures i1 == i2 && s1 == s2
  {}

  // ---- What a write changes ----

  /** Changing a block nobody owns changes what no slot names. */
  lemma FreeWriteKeeps(store: Store, store': Store, inodes: seq<Inode>, owner: map<nat, Place>, b: nat, ino: nat,
                       s: Slot)
    requires Shaped(inodes) && Owned(store, inodes, owner) && ino < |inodes| && IsSlot(s)
    requires b < |store| && b !in owner && |store'| == |store| && store' == store[b := store'[b]]
    ensures Named(store', inodes, ino, s) == Named(store, inodes, ino, s)
  {
    hide GetWord;
    if HasParent(s) {
      assert Named(store, inodes, ino, Parent(s)) != b || b == 0;
      if s.Leaf? {
        assert Named(store, inodes, ino, Double) != b || b == 0;
      }
    }
  }

  /** Changing a data block changes what no slot names. */
  lemma DataWriteKeeps(store: Store, store': Store, inodes: seq<Inode>, owner: map<nat, Place>, b: nat, ino: nat,
                       s: Slot)
    requires Shaped(inodes) && Owned(store, inodes, owner) && ino < |inodes| && IsSlot(s)
    requires b < |store| && b in owner && IsData(owner[b].s) && |store'| == |store| && store' == store[b := store'[b]]
    ensures Named(store', inodes, ino, s) == Named(store, inodes, ino, s)
  {
    hide GetWord;
    if HasParent(s) {
      assert Named(store, inodes, ino, Parent(s)) != b || b == 0;
      if s.Leaf? {
        assert Named(store, inodes, ino, Double) != b || b == 0;
      }
    }
  }

  // ---- Giving a slot a block ----

  /** The index blocks after slot `s` of inode `ino` is set to `v` ... */
  function SetStore(store: Store, inodes: seq<Inode>, ino: nat, s: Slot, v: nat): (r: Store)
    requires Shaped(inodes) && ino < |inodes| && IsSlot(s) && v < UINT_LIMIT
    requires HasParent(s) ==> 0 < Named(store, inodes, ino, Parent(s)) < |store|
  {
    if HasParent(s) then
      var p := Named(store, inodes, ino, Parent(s));
      store[p := SetWord(store[p], IndexIn(s), v)]
    else store
  }

  /** ... and the inodes. */
  function SetInodes(inodes: seq<Inode>, ino: nat, s: Slot, v: nat): (r: seq<Inode>)
    requires Shaped(inodes) && ino < |inodes| && IsSlot(s)
    ensures Shaped(r) && |r| == |inodes|
    ensures forall i :: 0 <= i < |inodes| ==> r[i].size == inodes[i].size
  {
    if HasParent(s) then inodes
    else inodes[ino := inodes[ino].(addrs := inodes[ino].addrs[AddrIndex(s) := v])]
  }

  /** Slot `s` of inode `ino` is empty but its index block, if it needs one, is there. */
  ghost predicate Vacant(store: Store, inodes: seq<Inode>, ino: nat, s: Slot)
    requires Shaped(inodes)
  {
    && ino < |inodes| && IsSlot(s)
    && Named(store, inodes, ino, s) == 0
    && (HasParent(s) ==> 0 < Named(store, inodes, ino, Parent(s)) < |store|)
  }

  /** Putting a fresh zeroed block in a vacant slot changes what that slot names, and nothing else. */
  lemma SetNamed(store: Store, inodes: seq<Inode>, owner: map<nat, Place>, ino: nat, s: Slot, v: nat, i': nat, s': Slot)
    requires Shaped(inodes) && Owned(store, inodes, owner) && Vacant(store, inodes, ino, s)
    requires 0 < v < |store| <= UINT_LIMIT && v !in owner && store[v] == ZERO_BYTES
    requires i' < |inodes| && IsSlot(s')
    ensures Named(SetStore(store, inodes, ino, s, v), SetInodes(inodes, ino, s, v), i', s')
         == if i' == ino && s' == s then v else Named(store, inodes, i', s')
  {
    hide GetWord, SetWord;
    var store', inodes' := SetStore(store, inodes, ino, s, v), SetInodes(inodes, ino, s, v);
    if HasParent(s) {
      SetEntry(store, inodes, owner, ino, s, v, i', s');
    } else {
      SetAddress(store, inodes, owner, ino, s, v, i', s');
    }
  }

  lemma SetAddress(store: Store, inodes: seq<Inode>, owner: map<nat, Place>, ino: nat, s: Slot, v: nat, i': nat,
                   s': Slot)
    requires Shaped(inodes) && Owned(store, inodes, owner) && Vacant(store, inodes, ino, s) && !HasParent(s)
    requires 0 < v < |store| <= UINT_LIMIT && store[v] == ZERO_BYTES
    requires i' < |inodes| && IsSlot(s')
    ensures Named(store, SetInodes(inodes, ino, s, v), i', s') == if i' == ino && s' == s then v
      else Named(store, inodes, i', s')
  {
    hide GetWord;
    if HasParent(s') {
      ZeroWords(IndexIn(s'));
      if s'.Leaf? {
        ZeroWords(s'.i);
      }
    }
  }

  lemma SetEntry(store: Store, inodes: seq<Inode>, owner: map<nat, Place>, ino: nat, s: Slot, v: nat, i': nat, s': Slot)
    requires Shaped(inodes) && Owned(store, inodes, owner) && Vacant(store, inodes, ino, s) && HasParent(s)
    requires 0 < v < |store| <= UINT_LIMIT && v !in owner && store[v] == ZERO_BYTES
    requires i' < |inodes| && IsSlot(s')
    ensures Named(SetStore(store, inodes, ino, s, v), inodes, i', s') == if i' == ino && s' == s then v
      else Named(store, inodes, i', s')
  {
    hide GetWord, SetWord;
    var p := Named(store, inodes, ino, Parent(s));
    assert p in owner && owner[p] == Place(ino, Parent(s));
    if HasParent(s') {
      var p' := Named(store, inodes, i', Parent(s'));
      WordRoundTrip(store[p], IndexIn(s), v, IndexIn(s'));
      ZeroWords(IndexIn(s'));
      if s'.Leaf? {
        var d := Named(store, inodes, i', Double);
        WordRoundTrip(store[p], IndexIn(s), v, s'.i);
      }
    }
  }

  /** Naming one more block, one nobody owns, extends the ownership. */
  lemma OwnOneMore(store: Store, inodes: seq<Inode>, owner: map<nat, Place>, store': Store, inodes': seq<Inode>,
                   ino: nat, s: Slot, v: nat)
    requires Shaped(inodes) && Shaped(inodes') && |inodes'| == |inodes| && |store'| == |store|
    requires Owned(store, inodes, owner) && Exact(store, inodes, owner) && v !in owner && 0 < v < |store|
    requires ino < |inodes| && IsSlot(s) && Named(store, inodes, ino, s) == 0
    requires forall i', s' {:trigger Named(store', inodes', i', s')} :: 0 <= i' < |inodes| && IsSlot(s') ==>
      Named(store', inodes', i', s') == if i' == ino && s' == s then v else Named(store, inodes, i', s')
    ensures Owned(store', inodes', owner[v := Place(ino, s)])
    ensures Exact(store', inodes', owner[v := Place(ino, s)])
  {
    hide Named;
    var owner' := owner[v := Place(ino, s)];
    forall b | b in owner'
      ensures 0 < b < |store'| && owner'[b].ino < |inodes'| && IsSlot(owner'[b].s)
      ensures Named(store', inodes', owner'[b].ino, owner'[b].s) == b
    {
      assert b != v ==> Named(store, inodes, owner[b].ino, owner[b].s) == b;
    }
  }

  /** Allocation keeps the tree: the new block has one owner, every other slot its old block. */
  lemma AllocKeepsTree(store: Store, bitmap: seq<bool>, inodes: seq<Inode>, owner: map<nat, Place>, dataStart: nat,
                       ino: nat, s: Slot, v: nat)
    requires Tree(store, bitmap, inodes, owner, dataStart) && Vacant(store, inodes, ino, s)
    requires 0 < v < |store| && !bitmap[v] && store[v] == ZERO_BYTES
    ensures v !in owner
    ensures Tree(SetStore(store, inodes, ino, s, v), bitmap[v := true], SetInodes(inodes, ino, s, v),
                 owner[v := Place(ino, s)], dataStart)
  {
    hide Named, SetStore, SetInodes, Owned, Exact;
    assert v !in owner;
    var store', inodes' := SetStore(store, inodes, ino, s, v), SetInodes(inodes, ino, s, v);
    SetStoreSize(store, inodes, ino, s, v);
    forall i', s' | 0 <= i' < |inodes| && IsSlot(s')
      ensures Named(store', inodes', i', s') == if i' == ino && s' == s then v else Named(store, inodes, i', s')
    {
      SetNamed(store, inodes, owner, ino, s, v, i', s');
    }
    OwnOneMore(store, inodes, owner, store', inodes', ino, s, v);
  }

  lemma SetStoreSize(store: Store, inodes: seq<Inode>, ino: nat, s: Slot, v: nat)
    requires Shaped(inodes) && Vacant(store, inodes, ino, s) && v < UINT_LIMIT
    ensures |SetStore(store, inodes, ino, s, v)| == |store|
  {}

  /** Zeroing a free block keeps the tree. */
  lemma ZeroKeepsTree(store: Store, bitmap: seq<bool>, inodes: seq<Inode>, owner: map<nat, Place>, dataStart: nat,
                      v: nat)
    requires Tree(store, bitmap, inodes, owner, dataStart) && v < |store| && !bitmap[v]
    ensures Tree(store[v := ZERO_BYTES], bitmap, inodes, owner, dataStart)
    ensures forall ino, s {:trigger Named(store[v := ZERO_BYTES], inodes, ino, s)} ::
      0 <= ino < |inodes| && IsSlot(s) ==>
      Named(store[v := ZERO_BYTES], inodes, ino, s) == Named(store, inodes, ino, s)
  {
    hide Named;
    var store' := store[v := ZERO_BYTES];
    forall ino, s | 0 <= ino < |inodes| && IsSlot(s)
      ensures Named(store', inodes, ino, s) == Named(store, inodes, ino, s)
    {
      FreeWriteKeeps(store, store', inodes, owner, v, ino, s);
    }
  }
}
