/** A directory's slots, and how writing one entry changes them. */
module DirSlots {
  import opened Layout
  import opened Codec
  import opened NameTree
  import opened TreeOps
  import opened DiskImage
  import opened BlockTree
  import opened FileGrowth

  /** A directory inode that keeps the size rules: whole blocks and no holes. */
  ghost predicate WholeDir(img: Image, dir: Inode) {
    forall i :: i == img ==> WholeDirIn(i, dir)
  }

  ghost predicate WholeDirIn(img: Image, dir: Inode) {
    Sound(img, dir) && IsDir(dir) && SizeRule(img.blocks, dir)
  }

  /** Only the pointers, the block count and the size differ. */
  predicate SameButSize(dir: Inode, dir': Inode) {
    dir' == dir.(direct := dir'.direct, single := dir'.single, double := dir'.double, blockCount := dir'.blockCount,
        size := dir'.size)
  }

  predicate IsNamed(e: Entry, name: seq<Byte>) {
    e.inode != 0 && e.len == |name| && |name| <= MAX_NAME_LEN && e.field[..|name|] == name
  }

  lemma SlotIn(blocks: seq<Block>, dir: Inode, k: nat, s: nat)
    requires k < dir.size / BLOCK_SIZE && s < DIRENTS_PER_BLOCK
    ensures k * DIRENTS_PER_BLOCK + s < |Slots(blocks, dir)|
    ensures Slots(blocks, dir)[k * DIRENTS_PER_BLOCK + s] == Slot(FileBlock(blocks, dir, k), s)
  {
    SlotSplit(k, s);
  }

  lemma SlotSplit(k: nat, s: nat)
    requires s < DIRENTS_PER_BLOCK
    ensures (k * DIRENTS_PER_BLOCK + s) / DIRENTS_PER_BLOCK == k && (k * DIRENTS_PER_BLOCK + s) % DIRENTS_PER_BLOCK == s
  {
  }

  /** The slots, block by block. */
  lemma SlotsFrom(blocks: seq<Block>, dir: Inode, i: nat)
    requires i < |Slots(blocks, dir)|
    ensures i / DIRENTS_PER_BLOCK < dir.size / BLOCK_SIZE
    ensures Slots(blocks, dir)[i] == Slot(FileBlock(blocks, dir, i / DIRENTS_PER_BLOCK), i % DIRENTS_PER_BLOCK)
  {
  }

  lemma SlotsPut(blocks: seq<Block>, blocks': seq<Block>, dir: Inode, k: nat, s: nat, e: Entry)
    requires k < dir.size / BLOCK_SIZE && s < DIRENTS_PER_BLOCK
    requires forall j: nat :: FileBlock(blocks', dir, j)
                              == if j == k then PutSlot(FileBlock(blocks, dir, k), s, e) else FileBlock(blocks, dir, j)
    ensures k * DIRENTS_PER_BLOCK + s < |Slots(blocks, dir)|
    ensures Slots(blocks', dir) == Slots(blocks, dir)[k * DIRENTS_PER_BLOCK + s := e]
  {
    SlotIn(blocks, dir, k, s);
    var i := k * DIRENTS_PER_BLOCK + s;
    forall n: nat | n < |Slots(blocks, dir)|
      ensures Slots(blocks', dir)[n] == if n == i then e else Slots(blocks, dir)[n]
    {
      SlotsFrom(blocks, dir, n);
      SlotsFrom(blocks', dir, n);
      SlotSplit(k, s);
      SlotOfPut(FileBlock(blocks, dir, k), s, e, n % DIRENTS_PER_BLOCK);
    }
  }

  /** A block more, with e first in it. */
  lemma SlotsGrow(blocks: seq<Block>, dir: Inode, blocks': seq<Block>, dir': Inode, e: Entry)
    requires dir.size % BLOCK_SIZE == 0 && dir.size > 0 && dir'.size == dir.size + BLOCK_SIZE
    requires forall j: nat :: FileBlock(blocks', dir', j)
                              == if j == dir.size / BLOCK_SIZE then PutSlot(ZERO_BLOCK, 0, e)
                                  else FileBlock(blocks, dir, j)
    ensures Inserted(Slots(blocks, dir), Slots(blocks', dir'), |Slots(blocks, dir)|, e)
  {
    var n := dir.size / BLOCK_SIZE;
    assert dir'.size / BLOCK_SIZE == n + 1;
    forall i: nat | i < |Slots(blocks', dir')|
      ensures Slots(blocks', dir')[i]
              == if i == |Slots(blocks, dir)| then e else if i < |Slots(blocks, dir)| then Slots(blocks, dir)[i]
                  else ZERO_ENTRY
    {
      SlotsFrom(blocks', dir', i);
      if i < |Slots(blocks, dir)| {
        SlotsFrom(blocks, dir, i);
      } else {
        SlotOfPut(ZERO_BLOCK, 0, e, i % DIRENTS_PER_BLOCK);
        SlotOfZero(i % DIRENTS_PER_BLOCK);
      }
    }
  }

  lemma WholeBlock(img: Image, dir: Inode, k: nat)
    requires WholeDir(img, dir) && k < dir.size / BLOCK_SIZE && |img.blocks| == img.sb.totalBlocks
    ensures k < MAX_FILE_BLOCKS && 0 < DataPtr(img.blocks, dir, k) < |img.blocks|
    ensures FileBlock(img.blocks, dir, k) == Load(img.blocks, DataPtr(img.blocks, dir, k))
  {
    assert WholeDirIn(img, dir);
    assert PtrAt(img.blocks, dir, Data(k)) == DataPtr(img.blocks, dir, k);
  }

  lemma BlockIsData(img: Image, dir: Inode, k: nat)
    requires WholeDir(img, dir) && k < dir.size / BLOCK_SIZE && |img.blocks| == img.sb.totalBlocks
    ensures DataPtr(img.blocks, dir, k) >= img.sb.dataStart
  {
    WholeBlock(img, dir, k);
    assert WholeDirIn(img, dir);
    assert PtrAt(img.blocks, dir, Data(k)) == DataPtr(img.blocks, dir, k);
  }

  /** One entry of a directory written in place: nothing else about it changes. */
  lemma PutEntry(img: Image, dir: Inode, k: nat, s: nat, e: Entry)
    requires WholeDir(img, dir) && |img.blocks| == img.sb.totalBlocks && k < dir.size / BLOCK_SIZE
             && s < DIRENTS_PER_BLOCK
    ensures k < MAX_FILE_BLOCKS && DataPtr(img.blocks, dir, k) < |img.blocks|
    ensures k * DIRENTS_PER_BLOCK + s < |Slots(img.blocks, dir)|
    ensures var b := DataPtr(img.blocks, dir, k);
            var img' := img.(blocks := img.blocks[b := PutSlot(img.blocks[b], s, e)]);
            && Extended(img, dir, img', dir) && WholeDir(img', dir)
            && Slots(img'.blocks, dir) == Slots(img.blocks, dir)[k * DIRENTS_PER_BLOCK + s := e]
  {
    WholeBlock(img, dir, k);
    assert WholeDirIn(img, dir);
    var b := DataPtr(img.blocks, dir, k);
    WriteData(img, dir, k, PutSlot(img.blocks[b], s, e));
    SlotsPut(img.blocks, img.blocks[b := PutSlot(img.blocks[b], s, e)], dir, k, s, e);
    SameSizes(img.blocks, img.blocks[b := PutSlot(img.blocks[b], s, e)], dir);
  }

  lemma SameSizes(blocks: seq<Block>, blocks': seq<Block>, dir: Inode)
    requires SizeRule(blocks, dir) && Owned(blocks', dir) == Owned(blocks, dir)
    requires forall j: nat :: DataPtr(blocks', dir, j) == DataPtr(blocks, dir, j)
    ensures SizeRule(blocks', dir)
  {
  }

  /** What depends on the pointers alone does not see the other fields. */
  lemma PointersOnly(blocks: seq<Block>, ino: Inode, ino': Inode)
    requires ino'.direct == ino.direct && ino'.single == ino.single && ino'.double == ino.double
    ensures forall p :: IsPlace(p) ==> PtrAt(blocks, ino', p) == PtrAt(blocks, ino, p)
    ensures forall k: nat ::
              && DataPtr(blocks, ino', k) == DataPtr(blocks, ino, k)
              && FileBlock(blocks, ino', k) == FileBlock(blocks, ino, k)
    ensures Owned(blocks, ino') == Owned(blocks, ino)
  {
    forall b ensures Owns(blocks, ino', b) <==> Owns(blocks, ino, b) {
      if Owns(blocks, ino', b) {
        var p :| IsPlace(p) && PtrAt(blocks, ino', p) == b;
        assert PtrAt(blocks, ino, p) == b;
      }
      if Owns(blocks, ino, b) {
        var p :| IsPlace(p) && PtrAt(blocks, ino, p) == b;
        assert PtrAt(blocks, ino', p) == b;
      }
    }
  }

  /** A directory grown by the block that bmap_alloc gave it, with e first in it. */
  lemma GrowDir(img: Image, dir: Inode, img1: Image, dir1: Inode, b: nat, e: Entry)
    requires WholeDir(img, dir) && |img.blocks| == img.sb.totalBlocks && dir.size / BLOCK_SIZE < MAX_FILE_BLOCKS
    requires Mapped(img, dir, img1, dir1, dir.size / BLOCK_SIZE, b)
    ensures b < |img1.blocks| && SameButPointers(dir, dir1)
    ensures var img2 := img1.(blocks := img1.blocks[b := PutSlot(ZERO_BLOCK, 0, e)]);
            var dir2 := dir1.(size := dir.size + BLOCK_SIZE);
            && Extended(img, dir, img2, dir2) && WholeDir(img2, dir2)
            && Inserted(Slots(img.blocks, dir), Slots(img2.blocks, dir2), |Slots(img.blocks, dir)|, e)
  {
    var n := dir.size / BLOCK_SIZE;
    var w := PutSlot(ZERO_BLOCK, 0, e);
    assert WholeDirIn(img, dir);
    MappedBlocks(img, dir, img1, dir1, n, b);
    WriteData(img1, dir1, n, w);
    var img2 := img1.(blocks := img1.blocks[b := w]);
    var dir2 := dir1.(size := dir.size + BLOCK_SIZE);
    ExtendedTwice(img, dir, img1, dir1, img2, dir1);
    ResizedExtends(img, dir, img2, dir1, dir2);
    PointersOnly(img2.blocks, dir1, dir2);
    GrownSize(img, dir, img2, dir2);
    SlotsGrow(img.blocks, dir, img2.blocks, dir2, e);
  }

  lemma MappedBlocks(img: Image, dir: Inode, img1: Image, dir1: Inode, n: nat, b: nat)
    requires Sound(img, dir) && |img.blocks| == img.sb.totalBlocks && Mapped(img, dir, img1, dir1, n, b)
    ensures Extended(img, dir, img1, dir1) && Sound(img1, dir1)
    ensures |img1.blocks| == img1.sb.totalBlocks && img1.sb == img.sb && DataPtr(img1.blocks, dir1, n) == b != 0
    ensures dir1 == dir.(direct := dir1.direct, single := dir1.single, double := dir1.double,
            blockCount := dir1.blockCount)
    ensures forall k: nat :: k != n ==> DataPtr(img1.blocks, dir1, k) == DataPtr(img.blocks, dir, k)
    ensures forall k: nat :: k != n ==> FileBlock(img1.blocks, dir1, k) == FileBlock(img.blocks, dir, k)
  {
    assert MappedAt(img, dir, img1, dir1, n, b);
    MappedExtends(img, dir, img1, dir1, n, b);
  }

  /** Fields that are not pointers may change as well. */
  lemma ResizedExtends(img: Image, ino: Inode, img': Image, ino1: Inode, ino2: Inode)
    requires Extended(img, ino, img', ino1)
    requires ino2.direct == ino1.direct && ino2.single == ino1.single && ino2.double == ino1.double
             && ino2.blockCount == ino1.blockCount
    ensures Extended(img, ino, img', ino2) && Sound(img', ino2)
  {
    assert ExtendedTo(img, ino, img', ino1);
    PointersOnly(img'.blocks, ino1, ino2);
    assert PointersOk(img'.blocks, ino2, img'.sb.dataStart, img'.sb.totalBlocks);
  }

  lemma GrownSize(img: Image, dir: Inode, img2: Image, dir2: Inode)
    requires WholeDir(img, dir) && dir.size / BLOCK_SIZE < MAX_FILE_BLOCKS && Sound(img2, dir2)
    requires dir2.mode == dir.mode && dir2.size == dir.size + BLOCK_SIZE
    requires forall k: nat :: k != dir.size / BLOCK_SIZE ==>
             DataPtr(img2.blocks, dir2, k) == DataPtr(img.blocks, dir, k)
    requires DataPtr(img2.blocks, dir2, dir.size / BLOCK_SIZE) != 0
    ensures WholeDir(img2, dir2)
  {
    assert WholeDirIn(img, dir);
  }

  lemma InPlace(slots: seq<Entry>, i: nat, e: Entry)
    requires i < |slots| && slots[i].inode == 0
    ensures Inserted(slots, slots[i := e], i, e)
  {
  }

  /** A directory has nothing past its size. */
  lemma PastEnd(img: Image, dir: Inode)
    requires WholeDir(img, dir)
    ensures DataPtr(img.blocks, dir, dir.size / BLOCK_SIZE) == 0 && Sound(img, dir)
    ensures dir.size > 0 && dir.size % BLOCK_SIZE == 0
  {
    assert WholeDirIn(img, dir);
  }

  // ------------------------------------------- scanning, block by block

  predicate NoneNamed(blocks: seq<Block>, dir: Inode, name: seq<Byte>, k: nat) {
    forall j: nat, s: nat :: j < k && s < DIRENTS_PER_BLOCK ==> !IsNamed(Slot(FileBlock(blocks, dir, j), s), name)
  }

  lemma NoneNamedAt(blocks: seq<Block>, dir: Inode, name: seq<Byte>, k: nat)
    requires NoneNamed(blocks, dir, name, k)
    ensures forall i :: 0 <= i < k * DIRENTS_PER_BLOCK && i < |Slots(blocks, dir)| ==>
                !IsNamed(Slots(blocks, dir)[i], name)
  {
    forall i: nat | i < k * DIRENTS_PER_BLOCK && i < |Slots(blocks, dir)|
        ensures !IsNamed(Slots(blocks, dir)[i], name) {
      SlotsFrom(blocks, dir, i);
    }
  }

  /** The first slot with the name, at s in block k. */
  lemma FirstNamed(blocks: seq<Block>, dir: Inode, name: seq<Byte>, k: nat, s: nat)
    requires NoneNamed(blocks, dir, name, k) && k < dir.size / BLOCK_SIZE && s < DIRENTS_PER_BLOCK
    requires forall t: nat :: t < s ==> !IsNamed(Slot(FileBlock(blocks, dir, k), t), name)
    ensures k * DIRENTS_PER_BLOCK + s < |Slots(blocks, dir)|
    ensures Slots(blocks, dir)[k * DIRENTS_PER_BLOCK + s] == Slot(FileBlock(blocks, dir, k), s)
    ensures forall i :: 0 <= i < k * DIRENTS_PER_BLOCK + s ==> !IsNamed(Slots(blocks, dir)[i], name)
  {
    SlotIn(blocks, dir, k, s);
    NoneNamedAt(blocks, dir, name, k);
    forall i: nat | k * DIRENTS_PER_BLOCK <= i < k * DIRENTS_PER_BLOCK + s
        ensures !IsNamed(Slots(blocks, dir)[i], name) {
      EarlierInBlock(blocks, dir, name, k, i);
    }
  }

  lemma EarlierInBlock(blocks: seq<Block>, dir: Inode, name: seq<Byte>, k: nat, i: nat)
    requires k < dir.size / BLOCK_SIZE && k * DIRENTS_PER_BLOCK <= i < (k + 1) * DIRENTS_PER_BLOCK
    requires !IsNamed(Slot(FileBlock(blocks, dir, k), i - k * DIRENTS_PER_BLOCK), name)
    ensures i < |Slots(blocks, dir)| && !IsNamed(Slots(blocks, dir)[i], name)
  {
    SlotIn(blocks, dir, k, i - k * DIRENTS_PER_BLOCK);
  }

  predicate NoneFree(blocks: seq<Block>, dir: Inode, k: nat) {
    forall j: nat, s: nat :: j < k && s < DIRENTS_PER_BLOCK ==> Slot(FileBlock(blocks, dir, j), s).inode != 0
  }

  lemma NoneFreeAt(blocks: seq<Block>, dir: Inode)
    requires NoneFree(blocks, dir, dir.size / BLOCK_SIZE)
    ensures forall i :: 0 <= i < |Slots(blocks, dir)| ==> Slots(blocks, dir)[i].inode != 0
  {
    forall i: nat | i < |Slots(blocks, dir)| ensures Slots(blocks, dir)[i].inode != 0 {
      SlotsFrom(blocks, dir, i);
    }
  }

  /** e has the first free slot, or, if none is free, the first of one more block. */
  predicate FirstFit(slots: seq<Entry>, slots': seq<Entry>, i: nat, e: Entry) {
    && Inserted(slots, slots', i, e)
    && (forall k :: 0 <= k < i && k < |slots| ==> slots[k].inode != 0)
    && if i < |slots| then |slots'| == |slots| else i == |slots| && |slots'| == |slots| + DIRENTS_PER_BLOCK
  }

  lemma SlotsLonger(blocks: seq<Block>, dir: Inode, blocks': seq<Block>, dir': Inode)
    ensures dir'.size == dir.size + BLOCK_SIZE ==>
              |Slots(blocks', dir')| == |Slots(blocks, dir)| + DIRENTS_PER_BLOCK
  {
  }

  lemma NoneBefore(blocks: seq<Block>, dir: Inode, k: nat, s: nat)
    requires k < dir.size / BLOCK_SIZE && s < DIRENTS_PER_BLOCK && NoneFree(blocks, dir, k)
    requires forall t: nat :: t < s ==> Slot(FileBlock(blocks, dir, k), t).inode != 0
    ensures forall i: nat :: i < k * DIRENTS_PER_BLOCK + s && i < |Slots(blocks, dir)| ==>
              Slots(blocks, dir)[i].inode != 0
  {
    forall i: nat | i < k * DIRENTS_PER_BLOCK + s && i < |Slots(blocks, dir)|
        ensures Slots(blocks, dir)[i].inode != 0 {
      SlotsFrom(blocks, dir, i);
      EarlierSlot(i, k, s);
    }
  }

  lemma EarlierSlot(i: nat, k: nat, s: nat)
    requires i < k * DIRENTS_PER_BLOCK + s && s < DIRENTS_PER_BLOCK
    ensures i / DIRENTS_PER_BLOCK < k || (i / DIRENTS_PER_BLOCK == k && i % DIRENTS_PER_BLOCK < s)
  {
  }

  predicate AllFree(blocks: seq<Block>, dir: Inode, k: nat) {
    forall j: nat, s: nat :: j < k && s < DIRENTS_PER_BLOCK && (j == 0 ==> s >= 2) ==>
      Slot(FileBlock(blocks, dir, j), s).inode == 0
  }

  lemma AllFreeAt(blocks: seq<Block>, dir: Inode)
    requires AllFree(blocks, dir, dir.size / BLOCK_SIZE)
    ensures forall i :: 2 <= i < |Slots(blocks, dir)| ==> Slots(blocks, dir)[i].inode == 0
  {
    forall i: nat | 2 <= i < |Slots(blocks, dir)| ensures Slots(blocks, dir)[i].inode == 0 {
      SlotsFrom(blocks, dir, i);
    }
  }

  // ----------------------------------------------------------- new entries

  /** The entry make_entry makes. */
  function EntryFor(name: seq<Byte>, inode: u32, kind: u8): Entry
    requires |name| <= MAX_NAME_LEN
  {
    Entry(inode, |name|, kind, name + Zeros(MAX_NAME_LEN - |name|))
  }

  lemma EntryForIs(name: seq<Byte>, inode: u32, kind: u8)
    requires |name| <= MAX_NAME_LEN
    ensures EntryFor(name, inode, kind).Name() == name
    ensures inode != 0 ==> IsNamed(EntryFor(name, inode, kind), name)
  {
  }

  function FirstBlock(self: u32, parent: u32): Block {
    PutSlot(PutSlot(ZERO_BLOCK, 0, EntryFor(DOT, self, FT_DIR)), 1, EntryFor(DOTDOT, parent, FT_DIR))
  }

  lemma FirstBlockIs(self: u32, parent: u32)
    ensures IsDot(Slot(FirstBlock(self, parent), 0), DOT, self)
            && IsDot(Slot(FirstBlock(self, parent), 1), DOTDOT, parent)
    ensures forall s: nat :: 2 <= s < DIRENTS_PER_BLOCK ==> Slot(FirstBlock(self, parent), s) == ZERO_ENTRY
  {
    var b0 := PutSlot(ZERO_BLOCK, 0, EntryFor(DOT, self, FT_DIR));
    forall s: nat | s < DIRENTS_PER_BLOCK
      ensures Slot(FirstBlock(self, parent), s)
              == if s == 0 then EntryFor(DOT, self, FT_DIR) else if s == 1 then EntryFor(DOTDOT, parent, FT_DIR)
                  else ZERO_ENTRY
    {
      SlotOfPut(b0, 1, EntryFor(DOTDOT, parent, FT_DIR), s);
      SlotOfPut(ZERO_BLOCK, 0, EntryFor(DOT, self, FT_DIR), s);
      SlotOfZero(s);
    }
  }

  /** A name that no slot of d has is a new entry's. */
  lemma NameIsNew(t: map<nat, Node>, d: nat, name: seq<Byte>)
    requires TreeOk(t) && d in t && t[d].Dir? && 0 !in t
    requires forall k :: 0 <= k < |t[d].slots| ==> !IsNamed(t[d].slots[k], name)
    ensures forall k :: 0 <= k < |t[d].slots| && t[d].slots[k].inode != 0 ==> t[d].slots[k].Name() != name
  {
    var p := HasRule(t, d);
    forall k | 0 <= k < |t[d].slots| && t[d].slots[k].inode != 0 ensures t[d].slots[k].Name() != name {
      SlotNamed(t, d, p, k);
    }
  }

  lemma SlotNamed(t: map<nat, Node>, d: nat, parent: nat, k: nat)
    requires d in t && t[d].Dir? && DirRule(t, d, parent) && k < |t[d].slots| && t[d].slots[k].inode != 0
    ensures IsNamed(t[d].slots[k], t[d].slots[k].Name())
  {
  }

  /** An entry with the name sits past the dots, and is the only one. */
  lemma NameIsThere(t: map<nat, Node>, d: nat, name: seq<Byte>, k: nat)
    requires TreeOk(t) && d in t && t[d].Dir? && 0 !in t && GoodName(name)
    requires k < |t[d].slots| && IsNamed(t[d].slots[k], name)
    ensures k >= 2 && Names(t, Spot(d, k), t[d].slots[k].inode) && t[d].slots[k].inode in t
    ensures t[d].slots[k].kind == if t[t[d].slots[k].inode].Dir? then FT_DIR else FT_FILE
  {
    var p := HasRule(t, d);
    var e := t[d].slots[k];
    assert e.field[..e.len] == name;
    assert DOT == e.field[..1] || k != 0;
    assert EntryOk(t, e) || k < 2;
  }
}
