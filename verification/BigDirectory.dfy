/**
 fsck keeps a directory's blocks in a list that ends at its 2^20th. A directory can have more: this is a
 consistent image with one that has every block a file can.
 */
module BigDirectory {
  import opened Layout
  import opened Codec
  import opened Superblocks
  import opened NameTree
  import opened DiskImage
  import opened BlockTree
  import opened DirSlots
  import opened TreeOps
  import opened FsckScan
  import opened Mkfs

  /** The places of an inode, numbered from 0. */
  function Num(p: Place): nat
    requires IsPlace(p)
  {
    match p
    case Data(i) => i
    case Single => MAX_FILE_BLOCKS
    case Double => MAX_FILE_BLOCKS + 1
    case Second(j) => MAX_FILE_BLOCKS + 2 + j
  }

  const PLACES: nat := MAX_FILE_BLOCKS + 2 + PTRS_PER_BLOCK

  function PlaceOf(m: nat): (p: Place)
    requires m < PLACES
    ensures IsPlace(p) && Num(p) == m
  {
    if m < MAX_FILE_BLOCKS then Data(m)
    else if m == MAX_FILE_BLOCKS then Single
    else if m == MAX_FILE_BLOCKS + 1 then Double
    else Second(m - MAX_FILE_BLOCKS - 2)
  }

  lemma NumIs(p: Place, q: Place)
    requires IsPlace(p) && IsPlace(q)
    ensures Num(p) < PLACES && (Num(p) == Num(q) ==> p == q)
  {
  }

  /** Place number m leads to block base + m. */
  ghost predicate InARow(blocks: seq<Block>, ino: Inode, base: nat) {
    forall p :: IsPlace(p) ==> PtrAt(blocks, ino, p) == base + Num(p)
  }

  function Stretch(base: nat, n: nat): set<nat> {
    if n == 0 then {} else Stretch(base, n - 1) + {base + n - 1}
  }

  lemma {:induction false} StretchIs(base: nat, n: nat)
    ensures |Stretch(base, n)| == n && forall b: nat :: b in Stretch(base, n) <==> base <= b < base + n
  {
    if n > 0 {
      StretchIs(base, n - 1);
    }
  }

  lemma RowOwned(blocks: seq<Block>, ino: Inode, base: nat)
    requires InARow(blocks, ino, base) && 0 < base && base + PLACES < 0x1_0000_0000
    ensures forall b: nat :: Owns(blocks, ino, b) <==> base <= b < base + PLACES
    ensures |Owned(blocks, ino)| == PLACES
  {
    forall b: nat ensures Owns(blocks, ino, b) <==> base <= b < base + PLACES {
      if base <= b < base + PLACES {
        var p := PlaceOf(b - base);
        assert PtrAt(blocks, ino, p) == b;
      }
      if Owns(blocks, ino, b) {
        var p :| IsPlace(p) && PtrAt(blocks, ino, p) == b;
        NumIs(p, p);
      }
    }
    StretchIs(base, PLACES);
    assert Owned(blocks, ino) == Stretch(base, PLACES);
  }

  lemma RowPointers(blocks: seq<Block>, ino: Inode, base: nat, hi: nat)
    requires InARow(blocks, ino, base) && 0 < base && base + PLACES <= hi
    ensures PointersOk(blocks, ino, base, hi)
  {
    forall p, q | IsPlace(p) && IsPlace(q)
      ensures base <= PtrAt(blocks, ino, p) < hi
      ensures PtrAt(blocks, ino, p) == PtrAt(blocks, ino, q) ==> p == q
    {
      NumIs(p, q);
    }
  }

  // -------------------------------------------------------- the image's rules

  /** A disk with nothing on it but a root directory that has every block it can. */
  ghost predicate OnlyRoot(img: Image) {
    && SuperblockOk(img.sb, |img.blocks|) && img.rest == Zeros(BLOCK_SIZE - SUPERBLOCK_SIZE)
    && |img.inodes| == img.sb.inodeCount && img.inodeBits == {0, ROOT} && ROOT < |img.inodes|
    && (forall id: nat :: id < |img.inodes| && id != ROOT ==> img.inodes[id] == ZERO_INODE)
    && img.sb.dataStart + PLACES <= img.sb.totalBlocks
    && (forall b: nat :: b in img.blockBits <==> b < img.sb.dataStart + PLACES)
    && FullRoot(img.inodes[ROOT]) && InARow(img.blocks, img.inodes[ROOT], img.sb.dataStart)
    && img.blocks[img.sb.dataStart] == FirstBlock(ROOT_INODE, ROOT_INODE)
    && (forall b: nat :: img.sb.dataStart < b < img.sb.dataStart + MAX_FILE_BLOCKS ==> img.blocks[b] == ZERO_BLOCK)
  }

  predicate FullRoot(ino: Inode) {
    && ino.id == ROOT_INODE && IsDir(ino) && ino.links == 2
    && ino.size == MAX_FILE_BLOCKS * BLOCK_SIZE && ino.blockCount == PLACES
  }

  lemma RootSize(blocks: seq<Block>, ino: Inode, base: nat)
    requires FullRoot(ino) && InARow(blocks, ino, base) && 0 < base && base + PLACES < 0x1_0000_0000
    ensures SizeRule(blocks, ino) && ino.size / BLOCK_SIZE == MAX_FILE_BLOCKS
  {
    RowOwned(blocks, ino, base);
    forall k: nat ensures DataPtr(blocks, ino, k) != 0 <==> k < MAX_FILE_BLOCKS {
      if k < MAX_FILE_BLOCKS {
        assert PtrAt(blocks, ino, Data(k)) == base + k;
      }
    }
  }

  lemma RootInodes(img: Image)
    requires OnlyRoot(img) && 0 < img.sb.dataStart
    ensures InodesOk(img) && BitmapRule(img)
  {
    var ino, base := img.inodes[ROOT], img.sb.dataStart;
    RowOwned(img.blocks, ino, base);
    RowPointers(img.blocks, ino, base, img.sb.totalBlocks);
    RootSize(img.blocks, ino, base);
    forall id: nat | id < |img.inodes| ensures InodeRule(img, id) && (InUse(img, id) ==> id == ROOT) {
    }
    assert InUse(img, ROOT);
    forall b: nat | b < img.sb.totalBlocks
      ensures b in img.blockBits <==> b < base || exists id: nat ::
                  InUse(img, id) && Owns(img.blocks, img.inodes[id], b)
    {
      assert Owns(img.blocks, ino, b) <==> base <= b < base + PLACES;
    }
  }

  lemma RootSlot(img: Image, i: nat)
    requires OnlyRoot(img) && 0 < img.sb.dataStart && i < |Slots(img.blocks, img.inodes[ROOT])|
    ensures Slots(img.blocks, img.inodes[ROOT])[i]
         == if i < DIRENTS_PER_BLOCK then Slot(FirstBlock(ROOT_INODE, ROOT_INODE), i) else ZERO_ENTRY
  {
    var ino, base := img.inodes[ROOT], img.sb.dataStart;
    RootSize(img.blocks, ino, base);
    SlotsFrom(img.blocks, ino, i);
    RootBlock(img, i / DIRENTS_PER_BLOCK);
    if i / DIRENTS_PER_BLOCK > 0 {
      SlotOfZero(i % DIRENTS_PER_BLOCK);
    }
  }

  lemma RootBlock(img: Image, k: nat)
    requires OnlyRoot(img) && 0 < img.sb.dataStart && k < MAX_FILE_BLOCKS
    ensures FileBlock(img.blocks, img.inodes[ROOT], k) == if k == 0 then FirstBlock(ROOT_INODE, ROOT_INODE)
            else ZERO_BLOCK
  {
    assert PtrAt(img.blocks, img.inodes[ROOT], Data(k)) == img.sb.dataStart + k;
  }

  lemma RootSlots(img: Image)
    requires OnlyRoot(img) && 0 < img.sb.dataStart
    ensures FreshDir(Slots(img.blocks, img.inodes[ROOT]), ROOT, ROOT)
  {
    FirstBlockIs(ROOT_INODE, ROOT_INODE);
    RootSize(img.blocks, img.inodes[ROOT], img.sb.dataStart);
    var slots := Slots(img.blocks, img.inodes[ROOT]);
    forall i: nat | i < |slots|
      ensures slots[i] == if i < DIRENTS_PER_BLOCK then Slot(FirstBlock(ROOT_INODE, ROOT_INODE), i) else ZERO_ENTRY
    {
      RootSlot(img, i);
    }
  }

  lemma RootTree(img: Image)
    requires OnlyRoot(img) && 0 < img.sb.dataStart
    ensures TreeOk(Tree(img))
  {
    RootSlots(img);
    var slots := Slots(img.blocks, img.inodes[ROOT]);
    assert Tree(img) == map[ROOT := Dir(2, slots)];
    RootAlone(slots);
  }

  lemma OnlyRootConsistent(img: Image)
    requires OnlyRoot(img)
    ensures Consistent(img) && InUse(img, ROOT) && !Mappable(img.inodes[ROOT])
  {
    RegionsFit(img.sb, |img.blocks|);
    RootInodes(img);
    RootTree(img);
    RootSize(img.blocks, img.inodes[ROOT], img.sb.dataStart);
  }

  // ------------------------------------------------------- and one there is

  /** An indirect block whose first n words count up from `first`. */
  function Ramp(first: nat, n: nat): Block
    requires n <= PTRS_PER_BLOCK && first + n < 0x1_0000_0000
  {
    if n == 0 then ZERO_BLOCK else PutWord(Ramp(first, n - 1), n - 1, first + n - 1)
  }

  lemma {:induction false} RampAt(first: nat, n: nat, i: nat)
    requires n <= PTRS_PER_BLOCK && first + n < 0x1_0000_0000 && i < n
    ensures Word(Ramp(first, n), i) == first + i
  {
    WordOfPut(Ramp(first, n - 1), n - 1, first + n - 1, i);
    if i < n - 1 {
      RampAt(first, n - 1, i);
    }
  }

  /** What is in block `base + m`, where place number m leads. */
  function Filling(base: nat, m: nat): Block
    requires base + PLACES < 0xFFFF_0000
  {
    if m == 0 then FirstBlock(ROOT_INODE, ROOT_INODE)
    else if m < MAX_FILE_BLOCKS then ZERO_BLOCK
    else if m == MAX_FILE_BLOCKS then Ramp(base + DIRECT_PTRS, PTRS_PER_BLOCK)
    else if m == MAX_FILE_BLOCKS + 1 then Ramp(base + MAX_FILE_BLOCKS + 2, PTRS_PER_BLOCK)
    else if m < PLACES then Ramp(base + DoubleIndex(m - MAX_FILE_BLOCKS - 2, 0), PTRS_PER_BLOCK)
    else ZERO_BLOCK
  }

  ghost predicate Filled(blocks: seq<Block>, base: nat)
    requires base + PLACES < 0xFFFF_0000
  {
    && base + PLACES <= |blocks|
    && forall b: nat :: base <= b < base + PLACES ==> blocks[b] == Filling(base, b - base)
  }

  function RowInode(base: nat): Inode
    requires base + PLACES < 0xFFFF_0000
  {
    Inode(ROOT_INODE, DIR_MODE, 2, MAX_FILE_BLOCKS * BLOCK_SIZE, 0, PLACES,
          [base, base + 1, base + 2, base + 3, base + 4, base + 5, base + 6, base + 7, base + 8, base + 9, base + 10,
              base + 11],
          base + MAX_FILE_BLOCKS, base + MAX_FILE_BLOCKS + 1, ZERO_INODE.pad)
  }

  lemma RowSecond(blocks: seq<Block>, base: nat, j: nat)
    requires 0 < base && base + PLACES < 0xFFFF_0000 && Filled(blocks, base) && j < PTRS_PER_BLOCK
    ensures Entry32(blocks, base + MAX_FILE_BLOCKS + 1, j) == base + MAX_FILE_BLOCKS + 2 + j
  {
    RampAt(base + MAX_FILE_BLOCKS + 2, PTRS_PER_BLOCK, j);
    assert blocks[base + MAX_FILE_BLOCKS + 1] == Filling(base, MAX_FILE_BLOCKS + 1);
  }

  lemma RowData(blocks: seq<Block>, base: nat, i: nat)
    requires 0 < base && base + PLACES < 0xFFFF_0000 && Filled(blocks, base) && i < MAX_FILE_BLOCKS
    ensures DataPtr(blocks, RowInode(base), i) == base + i
  {
    if i < DIRECT_PTRS {
    } else if i < DIRECT_PTRS + PTRS_PER_BLOCK {
      RowSingle(blocks, base, i - DIRECT_PTRS);
    } else {
      var j, k := DoubleParts(i);
      DoubleAt(blocks, RowInode(base), i, j, k);
      RowDouble(blocks, base, j, k);
    }
  }

  lemma RowSingle(blocks: seq<Block>, base: nat, k: nat)
    requires 0 < base && base + PLACES < 0xFFFF_0000 && Filled(blocks, base) && k < PTRS_PER_BLOCK
    ensures Entry32(blocks, base + MAX_FILE_BLOCKS, k) == base + DIRECT_PTRS + k
  {
    RampAt(base + DIRECT_PTRS, PTRS_PER_BLOCK, k);
    assert blocks[base + MAX_FILE_BLOCKS] == Filling(base, MAX_FILE_BLOCKS);
  }

  lemma RowDouble(blocks: seq<Block>, base: nat, j: nat, k: nat)
    requires 0 < base && base + PLACES < 0xFFFF_0000 && Filled(blocks, base) && j < PTRS_PER_BLOCK && k < PTRS_PER_BLOCK
    ensures Entry32(blocks, Entry32(blocks, base + MAX_FILE_BLOCKS + 1, j), k) == base + DoubleIndex(j, k)
  {
    RowSecond(blocks, base, j);
    var second := Entry32(blocks, base + MAX_FILE_BLOCKS + 1, j);
    assert second == base + MAX_FILE_BLOCKS + 2 + j;
    RowUnder(blocks, base, j, k);
    assert Entry32(blocks, second, k) == base + DoubleIndex(j, k);
  }

  lemma RowUnder(blocks: seq<Block>, base: nat, j: nat, k: nat)
    requires 0 < base && base + PLACES < 0xFFFF_0000 && Filled(blocks, base) && j < PTRS_PER_BLOCK && k < PTRS_PER_BLOCK
    ensures Entry32(blocks, base + MAX_FILE_BLOCKS + 2 + j, k) == base + DoubleIndex(j, k)
  {
    var m, first := MAX_FILE_BLOCKS + 2 + j, base + DoubleIndex(j, 0);
    UnderFits(base, j);
    assert blocks[base + m] == Filling(base, m);
    RampAt(first, PTRS_PER_BLOCK, k);
  }

  lemma UnderFits(base: nat, j: nat)
    requires base + PLACES < 0xFFFF_0000 && j < PTRS_PER_BLOCK
    ensures MAX_FILE_BLOCKS + 2 + j < PLACES && base + DoubleIndex(j, 0) + PTRS_PER_BLOCK < 0x1_0000_0000
    ensures Filling(base, MAX_FILE_BLOCKS + 2 + j) == Ramp(base + DoubleIndex(j, 0), PTRS_PER_BLOCK)
  {
  }

  lemma RowHolds(blocks: seq<Block>, base: nat)
    requires 0 < base && base + PLACES < 0xFFFF_0000 && Filled(blocks, base)
    ensures InARow(blocks, RowInode(base), base)
  {
    forall p | IsPlace(p) ensures PtrAt(blocks, RowInode(base), p) == base + Num(p) {
      match p {
        case Data(i) => RowData(blocks, base, i);
        case Second(j) => RowSecond(blocks, base, j);
        case _ =>
      }
    }
  }

  const TOTAL: u32 := 0x20_0000
  const START: u32 := 67

  function Big(): Superblock {
    Superblock(MAGIC, BLOCK_SIZE, TOTAL, 32, 1, 2, 66, START, 1, 1, 0)
  }

  lemma BigIs()
    ensures PlanLayout(TOTAL, 32) == Planned(Big()) && SuperblockOk(Big(), TOTAL)
  {
    assert InodesFor(TOTAL, 32) == 32;
    assert BitmapBlocks(TOTAL) == 64 && BitmapBlocks(32) == 1;
    PlanPasses(TOTAL, 32);
  }

  function Blocks(base: nat, n: nat): (r: seq<Block>)
    requires base + PLACES < 0xFFFF_0000
    ensures |r| == n && forall b: nat :: b < n ==> r[b] == if b < base then ZERO_BLOCK else Filling(base, b - base)
  {
    if n == 0 then [] else Blocks(base, n - 1) + [if n - 1 < base then ZERO_BLOCK else Filling(base, n - 1 - base)]
  }

  lemma MakeOnlyRoot(sb: Superblock, n: nat) returns (img: Image)
    requires SuperblockOk(sb, sb.totalBlocks) && sb.inodeCount == 32 && 0 < sb.dataStart
    requires n == sb.dataStart + PLACES <= sb.totalBlocks && sb.dataStart + PLACES < 0xFFFF_0000
    ensures OnlyRoot(img) && Shaped(img)
  {
    var base := sb.dataStart;
    StretchIs(0, n);
    var blocks := Blocks(base, sb.totalBlocks);
    assert Filled(blocks, base);
    RowHolds(blocks, base);
    var inodes := seq(32, id => if id == ROOT then RowInode(base) else ZERO_INODE);
    img := Image(sb, Zeros(BLOCK_SIZE - SUPERBLOCK_SIZE), {0, ROOT}, Stretch(0, n), inodes, blocks);
    assert blocks[base] == Filling(base, 0);
    forall b: nat | base < b < base + MAX_FILE_BLOCKS ensures img.blocks[b] == ZERO_BLOCK {
      assert blocks[b] == Filling(base, b - base);
    }
  }

  /**
   fsck is not complete without its bound: this image is consistent and has a directory fsck cannot follow, so that
   fsck reports a problem.
   */
  lemma ConsistentNotMappable() returns (img: Image)
    ensures Shaped(img) && Consistent(img)
    ensures !(forall id: nat :: InUse(img, id) ==> Mappable(img.inodes[id]))
  {
    BigIs();
    img := MakeOnlyRoot(Big(), Big().dataStart + PLACES);
    OnlyRootConsistent(img);
  }
}
