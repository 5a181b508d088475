/** The image as the file system sees it, and the rules a consistent one keeps. */
module DiskImage {
  import opened Layout
  import opened Codec
  import opened Superblocks
  import opened NameTree

  const DIRECT_PTRS: nat := 12
  const ROOT_INODE: nat := 1
  const FILE_MODE: u16 := 0x81A4   // MODE_FILE | 0644
  const DIR_MODE: u16 := 0x41ED    // MODE_DIR | 0755
  const MAX_FILE_BLOCKS: nat := DIRECT_PTRS + PTRS_PER_BLOCK + PTRS_PER_BLOCK * PTRS_PER_BLOCK

  type DirectPtrs = s: seq<u32> | |s| == DIRECT_PTRS witness [0, 0, 0, 0, 0, 0, 0, 0, 0, 0, 0, 0]
  type Padding = s: seq<u32> | |s| == 11 witness [0, 0, 0, 0, 0, 0, 0, 0, 0, 0, 0]

  datatype Inode = Inode(
    id: u32, mode: u16, links: u16, size: u64, mtime: u64, blockCount: u32,
    direct: DirectPtrs, single: u32, double: u32, pad: Padding)

  const ZERO_INODE: Inode :=
    Inode(0, 0, 0, 0, 0, 0, [0, 0, 0, 0, 0, 0, 0, 0, 0, 0, 0, 0], 0, 0, [0, 0, 0, 0, 0, 0, 0, 0, 0, 0, 0])

  /** The whole disk, its regions decoded; `rest` is block 0 past the superblock. */
  datatype Image = Image(
    sb: Superblock, rest: seq<Byte>,
    inodeBits: set<nat>, blockBits: set<nat>,
    inodes: seq<Inode>, blocks: seq<Block>)

  /** As many inodes as the superblock says, and no bit past the end of a bitmap. */
  ghost predicate Shaped(img: Image) {
    && |img.inodes| == img.sb.inodeCount
    && (forall id :: id in img.inodeBits ==> id < |img.inodes|)
    && (forall b :: b in img.blockBits ==> b < img.sb.totalBlocks)
  }

  // ------------------------------------------------------- an inode's blocks

  function Load(blocks: seq<Block>, b: nat): Block {
    if b < |blocks| then blocks[b] else ZERO_BLOCK
  }

  /** Entry i of indirect block b; a block number of 0 is a hole with nothing in it. */
  function Entry32(blocks: seq<Block>, b: nat, i: nat): u32
    requires i < PTRS_PER_BLOCK
  {
    if b == 0 then 0 else Word(Load(blocks, b), i)
  }

  function PointersIn(b: Block): (r: seq<u32>)
    ensures |r| == PTRS_PER_BLOCK && forall k :: 0 <= k < PTRS_PER_BLOCK ==> r[k] == Word(b, k)
  {
    seq(PTRS_PER_BLOCK, k requires 0 <= k < PTRS_PER_BLOCK => Word(b, k))
  }

  /** Every place in an inode's tree that can hold a block number. */
  datatype Place = Data(index: nat) | Single | Double | Second(j: nat)

  predicate IsPlace(p: Place) {
    match p
    case Data(index) => index < MAX_FILE_BLOCKS
    case Second(j) => j < PTRS_PER_BLOCK
    case _ => true
  }

  lemma SplitIndex(j: nat, k: nat)
    requires k < PTRS_PER_BLOCK
    ensures (j * PTRS_PER_BLOCK + k) / PTRS_PER_BLOCK == j && (j * PTRS_PER_BLOCK + k) % PTRS_PER_BLOCK == k
  {
  }

  function DataPtr(blocks: seq<Block>, ino: Inode, index: nat): u32 {
    if index < DIRECT_PTRS then ino.direct[index]
    else if index < DIRECT_PTRS + PTRS_PER_BLOCK then Entry32(blocks, ino.single, index - DIRECT_PTRS)
    else if index < MAX_FILE_BLOCKS then
      var i := index - DIRECT_PTRS - PTRS_PER_BLOCK;
      Entry32(blocks, Entry32(blocks, ino.double, i / PTRS_PER_BLOCK), i % PTRS_PER_BLOCK)
    else 0
  }

  function PtrAt(blocks: seq<Block>, ino: Inode, p: Place): u32
    requires IsPlace(p)
  {
    match p
    case Data(index) => DataPtr(blocks, ino, index)
    case Single => ino.single
    case Double => ino.double
    case Second(j) => Entry32(blocks, ino.double, j)
  }

  ghost predicate Owns(blocks: seq<Block>, ino: Inode, b: nat) {
    b != 0 && exists p :: IsPlace(p) && PtrAt(blocks, ino, p) == b
  }

  ghost function Owned(blocks: seq<Block>, ino: Inode): set<nat> {
    set b: nat | b < 0x1_0000_0000 && Owns(blocks, ino, b)
  }

  /** Block k of a file; a hole reads as zeros. */
  function FileBlock(blocks: seq<Block>, ino: Inode, k: nat): Block {
    var b := DataPtr(blocks, ino, k);
    if b == 0 then ZERO_BLOCK else Load(blocks, b)
  }

  function SlotAt(blocks: seq<Block>, ino: Inode, s: int): Entry {
    if s < 0 then ZERO_ENTRY else Slot(FileBlock(blocks, ino, s / DIRENTS_PER_BLOCK), s % DIRENTS_PER_BLOCK)
  }

  function Slots(blocks: seq<Block>, ino: Inode): seq<Entry> {
    seq(ino.size / BLOCK_SIZE * DIRENTS_PER_BLOCK, s => SlotAt(blocks, ino, s))
  }

  // ------------------------------------------------------------- the rules

  predicate InUse(img: Image, id: nat) {
    0 < id < |img.inodes| && id in img.inodeBits
  }

  predicate IsDir(ino: Inode) { ino.mode == DIR_MODE }

  predicate InodeRule(img: Image, id: nat)
    requires id < |img.inodes|
  {
    var ino := img.inodes[id];
    && (id == 0 ==> id in img.inodeBits && ino == ZERO_INODE)
    && (id !in img.inodeBits ==> ino == ZERO_INODE)
    && (InUse(img, id) ==> ino.id == id && (ino.mode == FILE_MODE || IsDir(ino)) && ino.links >= 1)
  }

  /** Every pointer leads into [lo, hi), and no two to the same block. */
  ghost predicate PointersOk(blocks: seq<Block>, ino: Inode, lo: nat, hi: nat) {
    && (forall p :: IsPlace(p) && PtrAt(blocks, ino, p) != 0 ==> lo <= PtrAt(blocks, ino, p) < hi)
    && (forall p, q :: IsPlace(p) && IsPlace(q) && PtrAt(blocks, ino, p) == PtrAt(blocks, ino, q) != 0 ==> p == q)
  }

  ghost predicate PointerRule(img: Image, id: nat)
    requires id < |img.inodes|
  {
    PointersOk(img.blocks, img.inodes[id], img.sb.dataStart, img.sb.totalBlocks)
  }

  /** A block has one owner. */
  ghost predicate DisjointRule(img: Image, id: nat, other: nat)
    requires id < |img.inodes| && other < |img.inodes|
  {
    forall b :: Owns(img.blocks, img.inodes[id], b) ==> !Owns(img.blocks, img.inodes[other], b)
  }

  /** block_count, size and, in a directory, no holes. */
  ghost predicate SizeRule(blocks: seq<Block>, ino: Inode) {
    && ino.blockCount == |Owned(blocks, ino)|
    && ino.size <= MAX_FILE_BLOCKS * BLOCK_SIZE
    && (forall k: nat :: DataPtr(blocks, ino, k) != 0 ==> k * BLOCK_SIZE < ino.size)
    && (IsDir(ino) ==>
          && ino.size > 0 && ino.size % BLOCK_SIZE == 0
          && forall k: nat :: k < ino.size / BLOCK_SIZE ==> DataPtr(blocks, ino, k) != 0)
  }

  /** A bit is set for the metadata, and for a block that an inode in use owns. */
  ghost predicate BitmapRule(img: Image) {
    forall b: nat :: b < img.sb.totalBlocks ==>
      (b in img.blockBits <==>
         b < img.sb.dataStart || exists id: nat :: InUse(img, id) && Owns(img.blocks, img.inodes[id], b))
  }

  function NodeOf(blocks: seq<Block>, ino: Inode): Node {
    if IsDir(ino) then Dir(ino.links, Slots(blocks, ino)) else File(ino.links)
  }

  /** The names: what every inode in use is, and what is in each directory. */
  function Tree(img: Image): map<nat, Node> {
    map id | id in img.inodeBits && InUse(img, id) :: NodeOf(img.blocks, img.inodes[id])
  }

  ghost predicate InodesOk(img: Image) {
    && (forall id: nat :: id < |img.inodes| ==> InodeRule(img, id))
    && (forall id: nat :: InUse(img, id) ==> PointerRule(img, id) && SizeRule(img.blocks, img.inodes[id]))
    && (forall id: nat, other: nat :: InUse(img, id) && InUse(img, other) && id != other ==>
           DisjointRule(img, id, other))
  }

  ghost predicate Consistent(img: Image) {
    && SuperblockOk(img.sb, |img.blocks|) && (forall k :: 0 <= k < |img.rest| ==> img.rest[k] == 0)
    && InodesOk(img)
    && BitmapRule(img)
    && TreeOk(Tree(img))
  }
}
