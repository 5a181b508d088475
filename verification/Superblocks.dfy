/** The superblock and the region arithmetic: where each part of the disk starts. */
module Superblocks {
  import opened Layout
  import opened Codec

  const MAGIC: u32 := 0x31534643
  const BITS_PER_BLOCK: nat := 32768
  const INODES_PER_BLOCK: nat := 32
  const BLOCKS_PER_INODE: nat := 16

  datatype Superblock = Superblock(
    magic: u32, blockSize: u32, totalBlocks: u32, inodeCount: u32,
    inodeBitmapStart: u32, dataBitmapStart: u32, inodeTableStart: u32, dataStart: u32,
    rootInode: u32, cleanUnmount: u32, lastCheckpoint: u64)

  datatype Plan = Planned(sb: Superblock) | Refused

  function BitmapBlocks(bits: u32): nat {
    (bits + BITS_PER_BLOCK - 1) / BITS_PER_BLOCK
  }

  /** The inode count asked for, or one per 16 blocks, in whole table blocks. */
  function InodesFor(totalBlocks: u32, inodeCount: u32): nat {
    var asked := if inodeCount != 0 then inodeCount else totalBlocks / BLOCKS_PER_INODE;
    var whole := (asked + INODES_PER_BLOCK - 1) / INODES_PER_BLOCK * INODES_PER_BLOCK;
    if whole < INODES_PER_BLOCK then INODES_PER_BLOCK else whole
  }

  function PlanLayout(totalBlocks: u32, inodeCount: u32): Plan {
    var inodes := InodesFor(totalBlocks, inodeCount);
    if inodes > 0xFFFF_FFFF then Refused
    else
      var dataBitmap := 1 + BitmapBlocks(inodes);
      var table := dataBitmap + BitmapBlocks(totalBlocks);
      var data := table + inodes / INODES_PER_BLOCK;
      if data >= totalBlocks then Refused
      else Planned(Superblock(MAGIC, BLOCK_SIZE, totalBlocks, inodes, 1, dataBitmap, table, data, 1, 1, 0))
  }

  /** validate_superblock, true where it does not throw. */
  predicate SuperblockOk(sb: Superblock, deviceBlocks: nat) {
    && sb.magic == MAGIC && sb.blockSize == BLOCK_SIZE && sb.totalBlocks == deviceBlocks && sb.rootInode == 1
    && var want := PlanLayout(sb.totalBlocks, sb.inodeCount);
       && want.Planned?
       && sb.inodeCount == want.sb.inodeCount && sb.inodeBitmapStart == want.sb.inodeBitmapStart
       && sb.dataBitmapStart == want.sb.dataBitmapStart && sb.inodeTableStart == want.sb.inodeTableStart
       && sb.dataStart == want.sb.dataStart
  }

  /**
   A superblock that passes describes regions that follow one another without gap or
   overlap, each with room for what it holds, and leave at least one data block.
   */
  lemma RegionsFit(sb: Superblock, deviceBlocks: nat)
    requires SuperblockOk(sb, deviceBlocks)
    ensures sb.inodeCount >= 32 && sb.inodeCount % INODES_PER_BLOCK == 0
    ensures 1 == sb.inodeBitmapStart < sb.dataBitmapStart < sb.inodeTableStart < sb.dataStart < sb.totalBlocks
    ensures sb.inodeCount <= (sb.dataBitmapStart - sb.inodeBitmapStart) * BITS_PER_BLOCK
    ensures sb.totalBlocks <= (sb.inodeTableStart - sb.dataBitmapStart) * BITS_PER_BLOCK
    ensures sb.inodeCount == (sb.dataStart - sb.inodeTableStart) * INODES_PER_BLOCK
    ensures (sb.dataBitmapStart - sb.inodeBitmapStart - 1) * BITS_PER_BLOCK < sb.inodeCount
    ensures (sb.inodeTableStart - sb.dataBitmapStart - 1) * BITS_PER_BLOCK < sb.totalBlocks
  {
  }

  /** What passes, in full: the regions in order, each as many whole blocks as it needs, and room left for the root. */
  predicate WellLaid(sb: Superblock, deviceBlocks: nat) {
    && sb.magic == 0x31534643 && sb.blockSize == 4096 && sb.rootInode == 1 && sb.totalBlocks == deviceBlocks
    && sb.inodeCount >= 32 && sb.inodeCount % 32 == 0
    && 1 == sb.inodeBitmapStart < sb.dataBitmapStart < sb.inodeTableStart < sb.dataStart < sb.totalBlocks
    && (sb.dataBitmapStart - 2) * 32768 < sb.inodeCount <= (sb.dataBitmapStart - 1) * 32768
    && (sb.inodeTableStart - sb.dataBitmapStart - 1) * 32768 < sb.totalBlocks
       <= (sb.inodeTableStart - sb.dataBitmapStart) * 32768
    && sb.inodeCount == (sb.dataStart - sb.inodeTableStart) * 32
  }

  lemma PassesIs(sb: Superblock, deviceBlocks: nat)
    ensures SuperblockOk(sb, deviceBlocks) <==> WellLaid(sb, deviceBlocks)
  {
    if SuperblockOk(sb, deviceBlocks) {
      RegionsFit(sb, deviceBlocks);
    }
    if WellLaid(sb, deviceBlocks) {
      LaidPasses(sb, deviceBlocks);
    }
  }

  lemma LaidPasses(sb: Superblock, deviceBlocks: nat)
    requires WellLaid(sb, deviceBlocks)
    ensures SuperblockOk(sb, deviceBlocks)
  {
    WholeInodes(sb.totalBlocks, sb.inodeCount);
    BlocksFor(sb.inodeCount, sb.dataBitmapStart - 1);
    BlocksFor(sb.totalBlocks, sb.inodeTableStart - sb.dataBitmapStart);
  }

  lemma WholeInodes(totalBlocks: u32, n: u32)
    requires n >= 32 && n % 32 == 0
    ensures InodesFor(totalBlocks, n) == n
  {
    assert (n + INODES_PER_BLOCK - 1) / INODES_PER_BLOCK == n / INODES_PER_BLOCK;
  }

  lemma BlocksFor(bits: u32, k: nat)
    requires 0 < k && (k - 1) * 32768 < bits <= k * 32768
    ensures BitmapBlocks(bits) == k
  {
  }

  /**
   A plan is for this disk, marked clean, with no log to read; its inodes fill whole table blocks, the fewest that
   hold as many as are asked for, or one for every 16 blocks, and never none.
   */
  lemma PlanIs(totalBlocks: u32, inodeCount: u32)
    requires PlanLayout(totalBlocks, inodeCount).Planned?
    ensures var sb := PlanLayout(totalBlocks, inodeCount).sb;
            var asked := if inodeCount != 0 then inodeCount else totalBlocks / 16;
            && sb.magic == 0x31534643 && sb.blockSize == 4096 && sb.totalBlocks == totalBlocks && sb.rootInode == 1
            && sb.cleanUnmount == 1 && sb.lastCheckpoint == 0
            && sb.inodeCount % 32 == 0 && sb.inodeCount >= 32 && sb.inodeCount >= asked
            && (sb.inodeCount > 32 ==> sb.inodeCount < asked + 32)
  {
  }

  /** It refuses just when no superblock with so many inodes would pass. */
  lemma RefusedIs(totalBlocks: u32, inodeCount: u32)
    ensures PlanLayout(totalBlocks, inodeCount).Refused? <==>
              forall sb: Superblock :: SuperblockOk(sb, totalBlocks) ==>
                sb.inodeCount != InodesFor(totalBlocks, inodeCount)
  {
    WholeAgain(totalBlocks, inodeCount);
    var plan := PlanLayout(totalBlocks, inodeCount);
    if plan.Planned? {
      PlanPasses(totalBlocks, inodeCount);
      assert SuperblockOk(plan.sb, totalBlocks) && plan.sb.inodeCount == InodesFor(totalBlocks, inodeCount);
    } else {
      forall sb: Superblock | SuperblockOk(sb, totalBlocks)
          ensures sb.inodeCount != InodesFor(totalBlocks, inodeCount) {
        assert PlanLayout(totalBlocks, sb.inodeCount).Planned?;
      }
    }
  }

  lemma WholeAgain(totalBlocks: u32, inodeCount: u32)
    ensures var n := InodesFor(totalBlocks, inodeCount); n <= 0xFFFF_FFFF ==> InodesFor(totalBlocks, n) == n
  {
    var n := InodesFor(totalBlocks, inodeCount);
    assert n % INODES_PER_BLOCK == 0;
    assert (n + INODES_PER_BLOCK - 1) / INODES_PER_BLOCK == n / INODES_PER_BLOCK;
  }

  /** What mkfs plans is what a mount accepts, whatever inode count was asked for. */
  lemma PlanPasses(totalBlocks: u32, inodeCount: u32)
    ensures var plan := PlanLayout(totalBlocks, inodeCount);
            plan.Planned? ==> SuperblockOk(plan.sb, totalBlocks)
                              && (inodeCount != 0 ==> inodeCount <= plan.sb.inodeCount < inodeCount + INODES_PER_BLOCK)
  {
    WholeAgain(totalBlocks, inodeCount);
  }
}
