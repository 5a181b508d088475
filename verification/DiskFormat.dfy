/** How an image is laid out in the blocks of the disk: bitmaps bit by bit, inodes field by field. */
module DiskFormat {
  import opened Layout
  import opened Codec
  import opened Superblocks
  import opened DiskImage
  import opened Charges
  import opened ImageUpdate
  import opened Bits

  // ------------------------------------------------------- an image in blocks

  const INODE_WORDS: nat := 32

  /** Bit i of a block: in byte i / 8, the lowest bit first. */
  predicate BitSet(block: Block, i: nat)
    requires i < BITS_PER_BLOCK
  {
    Bit(block[i / 8] as nat, i % 8)
  }

  /** Inode k of an inode table block. */
  function InodeIn(block: Block, k: nat): Inode
    requires k < INODES_PER_BLOCK
  {
    InodeOf(Words(block, k * INODE_WORDS, INODE_WORDS))
  }

  /** An inode's 32 words, its fields one after another, the lower half first. */
  function InodeOf(ws: seq<u32>): Inode
    requires |ws| == INODE_WORDS
  {
    Inode(ws[0], Low(ws[1]), High(ws[1]), Both(ws[2], ws[3]), Both(ws[4], ws[5]), ws[6], ws[7..19], ws[19], ws[20],
        ws[21..])
  }

  function Low(w: u32): u16 { w % 0x1_0000 }

  function High(w: u32): u16 { w / 0x1_0000 }

  function Both(low: u32, high: u32): u64 { low + 0x1_0000_0000 * high }

  function Words(block: Block, from: nat, n: nat): (r: seq<u32>)
    requires from + n <= PTRS_PER_BLOCK
    ensures |r| == n && forall i :: 0 <= i < n ==> r[i] == Word(block, from + i)
  {
    if n == 0 then [] else Words(block, from, n - 1) + [Word(block, from + n - 1)]
  }

  /** Block h of the disk has what the image says is kept there. */
  ghost predicate Holds(block: Block, img: Image, h: nat) {
    && (forall b: nat :: b < img.sb.totalBlocks && BitHome(img.sb, b) == h ==>
          (b in img.blockBits <==> BitSet(block, b % BITS_PER_BLOCK)))
    && (forall id: nat :: id < |img.inodes| && InodeBitHome(img.sb, id) == h ==>
          (id in img.inodeBits <==> BitSet(block, id % BITS_PER_BLOCK)))
    && (forall id: nat :: id < |img.inodes| && InodeHome(img.sb, id) == h ==>
          InodeIn(block, id % INODES_PER_BLOCK) == img.inodes[id])
    && (img.sb.dataStart <= h < |img.blocks| ==> block == img.blocks[h])
  }

  /** The disk, apart from block 0, spells the image. */
  ghost predicate Decodes(disk: seq<Block>, img: Image) {
    |disk| == |img.blocks| && forall h: nat :: 0 < h < |disk| ==> Holds(disk[h], img, h)
  }

  // ------------------------------------------------------ an inode byte by byte

  /** The number in bytes [from, to) of inode k's 128. */
  function Field(block: Block, k: nat, from: nat, to: nat): nat
    requires k < INODES_PER_BLOCK && from <= to <= 128
  {
    FromLE(block[128 * k + from..128 * k + to])
  }

  lemma {:induction false} FromLEJoin(s: seq<Byte>, t: seq<Byte>)
    ensures FromLE(s + t) == FromLE(s) + Pow256(|s|) * FromLE(t)
  {
    if s == [] {
      assert s + t == t;
    } else {
      FromLEJoin(s[1..], t);
      assert (s + t)[1..] == s[1..] + t;
      Regroup(Pow256(|s| - 1), FromLE(t));
    }
  }

  lemma Regroup(p: nat, r: nat)
    ensures (0x100 * p) * r == 0x100 * (p * r)
  {
  }

  /** A field is its two parts, the lower one first. */
  lemma FieldJoin(block: Block, k: nat, from: nat, mid: nat, to: nat)
    requires k < INODES_PER_BLOCK && from <= mid <= to <= 128
    ensures Field(block, k, from, to) == Field(block, k, from, mid) + Pow256(mid - from) * Field(block, k, mid, to)
  {
    FromLEJoin(block[128 * k + from..128 * k + mid], block[128 * k + mid..128 * k + to]);
    assert block[128 * k + from..128 * k + to]
        == block[128 * k + from..128 * k + mid] + block[128 * k + mid..128 * k + to];
  }

  lemma FieldWord(block: Block, k: nat, i: nat)
    requires k < INODES_PER_BLOCK && i < INODE_WORDS
    ensures Words(block, k * INODE_WORDS, INODE_WORDS)[i] == Field(block, k, 4 * i, 4 * i + 4)
  {
    assert 4 * (k * INODE_WORDS + i) == 128 * k + 4 * i;
  }

  /** Where in its 128 bytes an inode's fields are. */
  lemma InodeAt(block: Block, k: nat)
    requires k < INODES_PER_BLOCK
    ensures var ino := InodeIn(block, k);
            && ino.id == Field(block, k, 0, 4)
            && ino.mode == Field(block, k, 4, 6) && ino.links == Field(block, k, 6, 8)
            && ino.size == Field(block, k, 8, 16) && ino.mtime == Field(block, k, 16, 24)
            && ino.blockCount == Field(block, k, 24, 28)
            && (forall i :: 0 <= i < 12 ==> ino.direct[i] == Field(block, k, 28 + 4 * i, 32 + 4 * i))
            && ino.single == Field(block, k, 76, 80) && ino.double == Field(block, k, 80, 84)
  {
    var ws := Words(block, k * INODE_WORDS, INODE_WORDS);
    forall i: nat | i < INODE_WORDS ensures ws[i] == Field(block, k, 4 * i, 4 * i + 4) {
      FieldWord(block, k, i);
    }
    assert Pow256(2) == 0x1_0000 && Pow256(4) == 0x1_0000_0000;
    FieldJoin(block, k, 4, 6, 8);
    FieldJoin(block, k, 8, 12, 16);
    FieldJoin(block, k, 16, 20, 24);
    Split(ws[1], Field(block, k, 4, 6), Field(block, k, 6, 8));
  }

  lemma Split(w: nat, low: u16, high: nat)
    requires w == low + 0x1_0000 * high
    ensures w % 0x1_0000 == low && w / 0x1_0000 == high
  {
  }

  // ----------------------------------------------- every image can be laid out

  /** The first n words of a block, and zeros. */
  function Filled(ws: seq<u32>, n: nat): Block
    requires n <= |ws| <= PTRS_PER_BLOCK
  {
    if n == 0 then ZERO_BLOCK else PutWord(Filled(ws, n - 1), n - 1, ws[n - 1])
  }

  lemma {:induction false} FilledAt(ws: seq<u32>, n: nat, i: nat)
    requires n <= |ws| <= PTRS_PER_BLOCK && i < n
    ensures Word(Filled(ws, n), i) == ws[i]
  {
    WordOfPut(Filled(ws, n - 1), n - 1, ws[n - 1], i);
    if i < n - 1 {
      FilledAt(ws, n - 1, i);
    }
  }

  function InodeWords(ino: Inode): (r: seq<u32>)
    ensures |r| == INODE_WORDS
  {
    [ino.id, ino.mode + 0x1_0000 * ino.links, ino.size % 0x1_0000_0000, ino.size / 0x1_0000_0000,
     ino.mtime % 0x1_0000_0000, ino.mtime / 0x1_0000_0000, ino.blockCount] + ino.direct + [ino.single, ino.double]
         + ino.pad
  }

  lemma InodeBack(ino: Inode)
    ensures InodeOf(InodeWords(ino)) == ino
  {
    var ws := InodeWords(ino);
    assert ws[7..19] == ino.direct && ws[21..] == ino.pad;
    Halves(ino.mode, ino.links);
    assert Both(ws[2], ws[3]) == ino.size && Both(ws[4], ws[5]) == ino.mtime;
  }

  lemma Halves(low: u16, high: u16)
    ensures Low(low + 0x1_0000 * high) == low && High(low + 0x1_0000 * high) == high
  {
  }

  /** The words of 32 inodes, from number `first` on; there are none past the last. */
  function TableWords(inodes: seq<Inode>, first: nat, n: nat): (r: seq<u32>)
    ensures |r| == n * INODE_WORDS
  {
    if n == 0 then []
    else TableWords(inodes, first, n - 1) + InodeWords(if first + n - 1 < |inodes| then inodes[first + n - 1]
        else ZERO_INODE)
  }

  lemma {:induction false} TableWordsAt(inodes: seq<Inode>, first: nat, n: nat, k: nat)
    requires k < n && first + k < |inodes|
    ensures (k + 1) * INODE_WORDS <= n * INODE_WORDS
    ensures TableWords(inodes, first, n)[k * INODE_WORDS..(k + 1) * INODE_WORDS] == InodeWords(inodes[first + k])
  {
    if k < n - 1 {
      TableWordsAt(inodes, first, n - 1, k);
    }
  }

  function TableBlock(inodes: seq<Inode>, first: nat): Block {
    Filled(TableWords(inodes, first, INODES_PER_BLOCK), PTRS_PER_BLOCK)
  }

  lemma TableHolds(inodes: seq<Inode>, first: nat, k: nat)
    requires k < INODES_PER_BLOCK && first + k < |inodes|
    ensures InodeIn(TableBlock(inodes, first), k) == inodes[first + k]
  {
    var ws := TableWords(inodes, first, INODES_PER_BLOCK);
    TableWordsAt(inodes, first, INODES_PER_BLOCK, k);
    var got := Words(TableBlock(inodes, first), k * INODE_WORDS, INODE_WORDS);
    forall i: nat | i < INODE_WORDS ensures got[i] == InodeWords(inodes[first + k])[i] {
      FilledAt(ws, PTRS_PER_BLOCK, k * INODE_WORDS + i);
      assert ws[k * INODE_WORDS..(k + 1) * INODE_WORDS][i] == ws[k * INODE_WORDS + i];
    }
    assert got == InodeWords(inodes[first + k]);
    InodeBack(inodes[first + k]);
  }

  /** The n bits from number `at` on, as a number. */
  function BitsFrom(s: set<nat>, at: nat, n: nat): nat {
    if n == 0 then 0 else WithBit(BitsFrom(s, at, n - 1), n - 1, at + n - 1 in s)
  }

  lemma {:induction false} BitsFromAt(s: set<nat>, at: nat, n: nat, k: nat)
    requires k < n
    ensures Bit(BitsFrom(s, at, n), k) <==> at + k in s
  {
    WithBitIs(BitsFrom(s, at, n - 1), n - 1, at + n - 1 in s, k);
    if k < n - 1 {
      BitsFromAt(s, at, n - 1, k);
    }
  }

  lemma {:induction false} BitsFromFits(s: set<nat>, at: nat, n: nat)
    requires n <= 8
    ensures BitsFrom(s, at, n) < Pow2(8) == 0x100
  {
    Pow2Eight();
    if n > 0 {
      BitsFromFits(s, at, n - 1);
      WithBitFits(BitsFrom(s, at, n - 1), n - 1, at + n - 1 in s, 8);
    }
  }

  /** The bytes of a bitmap from bit `at` on. */
  function BitBytes(s: set<nat>, at: nat, n: nat): (r: seq<Byte>)
    ensures |r| == n
  {
    if n == 0 then []
    else
      BitsFromFits(s, at + 8 * (n - 1), 8);
      BitBytes(s, at, n - 1) + [AsByte(BitsFrom(s, at + 8 * (n - 1), 8))]
  }

  lemma {:induction false} BitBytesAt(s: set<nat>, at: nat, n: nat, i: nat)
    requires i < n
    ensures BitsFrom(s, at + 8 * i, 8) < 0x100 && BitBytes(s, at, n)[i] as nat == BitsFrom(s, at + 8 * i, 8)
  {
    BitsFromFits(s, at + 8 * i, 8);
    if i < n - 1 {
      BitBytesAt(s, at, n - 1, i);
    } else {
      AsByteIs(BitsFrom(s, at + 8 * i, 8));
    }
  }

  lemma BitBytesHold(s: set<nat>, at: nat, i: nat)
    requires i < BITS_PER_BLOCK
    ensures BitSet(BitBytes(s, at, BLOCK_SIZE), i) <==> at + i in s
  {
    BitBytesAt(s, at, BLOCK_SIZE, i / 8);
    BitsFromAt(s, at + 8 * (i / 8), 8, i % 8);
  }

  /** What block h must have. */
  function BlockFor(img: Image, h: nat): Block
    requires h < |img.blocks|
  {
    var sb := img.sb;
    if h >= sb.dataStart then img.blocks[h]
    else if h >= sb.inodeTableStart then TableBlock(img.inodes, (h - sb.inodeTableStart) * INODES_PER_BLOCK)
    else if h >= sb.dataBitmapStart then BitBytes(img.blockBits, (h - sb.dataBitmapStart) * BITS_PER_BLOCK, BLOCK_SIZE)
    else if h >= sb.inodeBitmapStart
        then BitBytes(img.inodeBits, (h - sb.inodeBitmapStart) * BITS_PER_BLOCK, BLOCK_SIZE)
    else ZERO_BLOCK
  }

  lemma Apart(a: nat, n: nat, start: nat, h: nat)
    requires n > 0 && start + a / n == h
    ensures (h - start) * n + a % n == a
  {
  }

  lemma HomesOf(img: Image)
    requires Good(img)
    ensures img.sb.inodeBitmapStart < img.sb.dataBitmapStart < img.sb.inodeTableStart < img.sb.dataStart
    ensures forall b: nat :: b < img.sb.totalBlocks ==>
            img.sb.dataBitmapStart <= BitHome(img.sb, b) < img.sb.inodeTableStart
    ensures forall id: nat :: id < |img.inodes| ==>
            img.sb.inodeBitmapStart <= InodeBitHome(img.sb, id) < img.sb.dataBitmapStart
    ensures forall id: nat :: id < |img.inodes| ==> img.sb.inodeTableStart <= InodeHome(img.sb, id) < img.sb.dataStart
  {
    Parts(img);
    var sb := img.sb;
    RegionsFit(sb, |img.blocks|);
    forall b: nat | b < sb.totalBlocks ensures sb.dataBitmapStart <= BitHome(sb, b) < sb.inodeTableStart {
      DividesBelow(b, BITS_PER_BLOCK, sb.inodeTableStart - sb.dataBitmapStart);
    }
    forall id: nat | id < |img.inodes|
      ensures sb.inodeBitmapStart <= InodeBitHome(sb, id) < sb.dataBitmapStart
      ensures sb.inodeTableStart <= InodeHome(sb, id) < sb.dataStart
    {
      DividesBelow(id, BITS_PER_BLOCK, sb.dataBitmapStart - sb.inodeBitmapStart);
      DividesBelow(id, INODES_PER_BLOCK, sb.dataStart - sb.inodeTableStart);
    }
  }

  lemma DividesBelow(a: nat, n: nat, k: nat)
    requires n > 0 && a < k * n
    ensures a / n < k
  {
    var q := a / n;
    assert q * n <= a;
    Cancel(q, k, n);
  }

  lemma Cancel(q: nat, k: nat, n: nat)
    requires q * n < k * n
    ensures q < k
  {
  }

  lemma BitHolds(img: Image, h: nat, b: nat)
    requires Good(img) && h < |img.blocks| && b < img.sb.totalBlocks && BitHome(img.sb, b) == h
    ensures b in img.blockBits <==> BitSet(BlockFor(img, h), b % BITS_PER_BLOCK)
  {
    HomesOf(img);
    Apart(b, BITS_PER_BLOCK, img.sb.dataBitmapStart, h);
    BitBytesHold(img.blockBits, (h - img.sb.dataBitmapStart) * BITS_PER_BLOCK, b % BITS_PER_BLOCK);
  }

  lemma InodeHolds(img: Image, h: nat, id: nat)
    requires Good(img) && h < |img.blocks| && id < |img.inodes|
    ensures InodeBitHome(img.sb, id) == h ==> (id in img.inodeBits <==> BitSet(BlockFor(img, h), id % BITS_PER_BLOCK))
    ensures InodeHome(img.sb, id) == h ==> InodeIn(BlockFor(img, h), id % INODES_PER_BLOCK) == img.inodes[id]
  {
    HomesOf(img);
    var sb := img.sb;
    if InodeBitHome(sb, id) == h {
      Apart(id, BITS_PER_BLOCK, sb.inodeBitmapStart, h);
      BitBytesHold(img.inodeBits, (h - sb.inodeBitmapStart) * BITS_PER_BLOCK, id % BITS_PER_BLOCK);
    }
    if InodeHome(sb, id) == h {
      Apart(id, INODES_PER_BLOCK, sb.inodeTableStart, h);
      TableHolds(img.inodes, (h - sb.inodeTableStart) * INODES_PER_BLOCK, id % INODES_PER_BLOCK);
    }
  }

  lemma BlockForHolds(img: Image, h: nat)
    requires Good(img) && h < |img.blocks|
    ensures Holds(BlockFor(img, h), img, h)
  {
    forall b: nat | b < img.sb.totalBlocks && BitHome(img.sb, b) == h
      ensures b in img.blockBits <==> BitSet(BlockFor(img, h), b % BITS_PER_BLOCK)
    {
      BitHolds(img, h, b);
    }
    forall id: nat | id < |img.inodes|
      ensures InodeBitHome(img.sb, id) == h ==> (id in img.inodeBits <==> BitSet(BlockFor(img, h), id % BITS_PER_BLOCK))
      ensures InodeHome(img.sb, id) == h ==> InodeIn(BlockFor(img, h), id % INODES_PER_BLOCK) == img.inodes[id]
    {
      InodeHolds(img, h, id);
    }
  }

  /** A consistent image's part in these blocks can be written over any others. */
  lemma {:induction false} LaidOut(img: Image, under: seq<Block>, wrote: set<nat>, n: nat) returns (disk: seq<Block>)
    requires Good(img) && n <= |under| == |img.blocks|
    ensures |disk| == n
    ensures forall h: nat :: h < n ==> if h in wrote then Holds(disk[h], img, h) else disk[h] == under[h]
  {
    if n == 0 {
      disk := [];
    } else {
      disk := LaidOut(img, under, wrote, n - 1);
      BlockForHolds(img, n - 1);
      disk := disk + [if n - 1 in wrote then BlockFor(img, n - 1) else under[n - 1]];
    }
  }
}
